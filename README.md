# Stryng string helpers, modelled in Dafny

Stryng is a C# library of stateless string helpers. This project models its core and proves what the helpers promise:

- **Null and length checks** (`BasicStringValidators`).
- **Character-class predicates** (`CharStringValidators`), such as `IsAlpha`, `IsHexadecimal`, `HasSpecialChars` and `ContainsOnly`.
- **Substring predicates** (`SubstringValidators`): any/all containment, and prefix or suffix match that ignores case.
- **Format validators** (`FormatValidators`):
  - the email and URL regular expressions, restated as explicit predicates and proved equal to plainer characterisations;
  - the identifier scanner, as a loop;
  - the strong-password policy.
- **Financial validators** (`FinancialValidators`):
  - `IsIban`, the ISO 7064 MOD 97-10 check that ISO 13616 prescribes for IBANs. The proofs show that the library's digit-streaming fold equals the decimal value mod 97, that spaces and letter case do not matter, and that the library's three sample IBANs are valid.
  - `IsBic`, the ISO 9362 shape.
  - `IsCurrency`, a case-insensitive lookup in the ISO 4217 code set.
- **Text generator** (`TextGenerator`):
  - the length and alphabet contracts of the random generators;
  - `Reverse`, in place on a `char` array;
  - the `Slugify` pipeline;
  - `WrapText`, the greedy line filler. It is a loop proved equal to a specification, which is then proved to keep every word, in order, and to break lines greedily.
- **Enum extensions**:
  - the 64-bit flag arithmetic (`EnumFlags`);
  - the description, display-name and name fallback chain, `ToDictionary` and the `ToEnum` guard (`EnumExtensions`), over an explicit table of an enum's fields.

`Wrappers`, `Chars`, `Enumerable` and `Strings` hold what the library takes from .NET:

- `string?` is `Option<string>`;
- `char` holds the letter, digit, case and white-space tests;
- `Enumerable` holds LINQ's `All`/`Any`;
- `Strings` holds `Contains`, `Replace`, `ToUpperInvariant`, `TrimEnd`, `Split` and `string.Join`.

Most validators are functions whose own `ensures` characterise their result in both directions. The exceptions are these:

- Where the validator's regular expression or arithmetic is restated as a separate predicate, the full characterisation is a lemma beside the validator. `IsIban` has `IsIbanIsMod97`, `IsEmail` has `IsEmailIsPlainEmail` and `IsUrl` has `UrlIff`.
- `IsBic`'s `ensures` is stated over the predicate `BicShape`, and `IsBicIgnoresCase` adds the case-insensitivity.
- `IsIdentifier` is a method.

Other lemmas state the relations between validators and the library's own test expectations. Code that works step by step is a method proved against a function:

- `Reverse`'s `Array.Reverse`;
- `Slugify`'s builder loop;
- `IsIdentifier`'s scan;
- `WrapText`'s loop.

Where the code does something other than what its own doc comments promise, the model follows the code. For example, `WrapText` (`TextGenerator.cs`, lines 153-155) promises "lines of a maximum specified length, preserving words":

- **Over-long words in `WrapText`.** A word longer than `maxLineLength` gets a line of its own wherever it occurs, not only at the start. The length bound (`TextGenerator.WrapTextLinesFit`) therefore holds when every word fits.
- **Re-joining wrapped lines.** The lines do not always give back the words: see Findings.

## Model

| member | source | states |
|---|---|---|
| Strings.Contains | src/Stryng.Extensions/Validation/SubstringValidators.cs:15 | `input.Contains(sub)` holds exactly when `sub` occurs at some position of `input` |
| Enumerable.All | src/Stryng.Extensions/Validation/CharStringValidators.cs:16-17 | LINQ `All`: true iff the predicate holds of every element (so true for an empty sequence) |
| Enumerable.Any | src/Stryng.Extensions/Validation/CharStringValidators.cs:98-99 | LINQ `Any`: true iff the predicate holds of some element (so false for an empty sequence) |
| Strings.ToUpperInvariant | src/Stryng.Extensions/Validation/FinancialValidators.cs:18 | `ToUpperInvariant()`: same length, each character upper-cased on its own |
| Strings.ToLowerInvariant | src/Stryng.Extensions/Generation/TextGenerator.cs:84 | `ToLowerInvariant()`: same length, each character lower-cased on its own |
| Strings.Remove | src/Stryng.Extensions/Validation/FinancialValidators.cs:18 | `Replace(" ", "")`: the result holds no occurrence of the removed character and is no longer than the input |
| Strings.RemoveAppend | src/Stryng.Extensions/Validation/FinancialValidators.cs:18 | removing a character distributes over concatenation |
| Strings.RemoveNone | src/Stryng.Extensions/Validation/FinancialValidators.cs:18 | removing a character that does not occur leaves the text unchanged |
| Strings.TrimEnd | src/Stryng.Extensions/Generation/TextGenerator.cs:174 | `TrimEnd()` yields a prefix of the text that does not end in white space, and everything it cut off is white space |
| Strings.Split | src/Stryng.Extensions/Generation/TextGenerator.cs:165 | `Split(separators, RemoveEmptyEntries)` yields only non-empty words free of separators |
| Strings.SplitJoin | src/Stryng.Extensions/Generation/TextGenerator.cs:102 | splitting a single-space join of separator-free words on a separator set containing ' ' gives the words back |
| Strings.Join | src/Stryng.Extensions/Generation/TextGenerator.cs:102 | `string.Join(" ", words)`, defined by cases on the words; `SplitJoin` proves it is undone by `Split` |
| Strings.ToUpperInvariantAppend | src/Stryng.Extensions/Validation/FinancialValidators.cs:18 | upper-casing distributes over concatenation |
| BasicStringValidators.IsNullOrEmpty | src/Stryng.Extensions/Validation/StringValidators.cs:11-12 | true exactly for null and ""; every such input is also null-or-white-space |
| BasicStringValidators.IsNullOrWhiteSpace | src/Stryng.Extensions/Validation/StringValidators.cs:17-18 | true exactly for null and for strings made only of white space |
| BasicStringValidators.IsNotNullOrEmpty | src/Stryng.Extensions/Validation/StringValidators.cs:23-24 | the negation of `IsNullOrEmpty`: non-null and non-empty |
| BasicStringValidators.IsNotNullOrWhiteSpace | src/Stryng.Extensions/Validation/StringValidators.cs:29-30 | the negation of `IsNullOrWhiteSpace`, equivalently some character is not white space |
| BasicStringValidators.HasLength | src/Stryng.Extensions/Validation/StringValidators.cs:35-36 | false for null; for non-null input it holds exactly when both `HasMinLength` and `HasMaxLength` hold for the same bound |
| BasicStringValidators.HasMinLength | src/Stryng.Extensions/Validation/StringValidators.cs:41-42 | false for null; true for non-null input whenever the bound is at most 0 |
| BasicStringValidators.HasMaxLength | src/Stryng.Extensions/Validation/StringValidators.cs:47-48 | false for null; false for any input when the bound is negative |
| BasicStringValidators.WhiteSpaceIsNotEmpty | test/Stryng.Extensions.Tests/Validation/BasicStringValidatorsTests.cs:12-21 | " " is null-or-white-space but not null-or-empty, so the converse of the implication fails |
| BasicStringValidators.HasMinLengthMonotone | src/Stryng.Extensions/Validation/StringValidators.cs:41-42 | a minimum that holds still holds for every smaller minimum |
| BasicStringValidators.HasMaxLengthMonotone | src/Stryng.Extensions/Validation/StringValidators.cs:47-48 | a maximum that holds still holds for every larger maximum |
| BasicStringValidators.Examples | test/Stryng.Extensions.Tests/Validation/BasicStringValidatorsTests.cs:8-69 | the library's expectations for null, "", " ", "abc" and the length bounds |
| CharStringValidators.IsAlpha | src/Stryng.Extensions/Validation/CharStringValidators.cs:16-17 | true iff the input is non-empty and every character is a letter |
| CharStringValidators.IsUpperAlpha | src/Stryng.Extensions/Validation/CharStringValidators.cs:22-30 | true iff non-empty and every character is an upper-case letter |
| CharStringValidators.IsLowerAlpha | src/Stryng.Extensions/Validation/CharStringValidators.cs:35-43 | true iff non-empty and every character is a lower-case letter |
| CharStringValidators.IsLowerCase | src/Stryng.Extensions/Validation/CharStringValidators.cs:48-56 | true iff non-empty and no character is an upper-case letter (non-letters are ignored) |
| CharStringValidators.IsUpperCase | src/Stryng.Extensions/Validation/CharStringValidators.cs:61-69 | true iff non-empty and no character is a lower-case letter |
| CharStringValidators.IsNumeric | src/Stryng.Extensions/Validation/CharStringValidators.cs:74-75 | true iff non-empty and every character is a digit |
| CharStringValidators.IsBinary | src/Stryng.Extensions/Validation/CharStringValidators.cs:80-81 | true iff non-empty and every character is '0' or '1' |
| CharStringValidators.IsHexadecimal | src/Stryng.Extensions/Validation/CharStringValidators.cs:86-87 | true iff non-empty, every character but the last is a hex digit, and the last is a hex digit or a '\n' after at least one hex digit (`\Z`) |
| CharStringValidators.IsAlphaNumeric | src/Stryng.Extensions/Validation/CharStringValidators.cs:92-93 | true iff non-empty and every character is a letter or digit |
| CharStringValidators.HasDigits | src/Stryng.Extensions/Validation/CharStringValidators.cs:98-99 | true iff some character is a digit |
| CharStringValidators.HasLetters | src/Stryng.Extensions/Validation/CharStringValidators.cs:104-105 | true iff some character is a letter |
| CharStringValidators.HasSpecialChars | src/Stryng.Extensions/Validation/CharStringValidators.cs:111-122 | true iff some character is in the default special set or in the extra characters |
| CharStringValidators.ContainsOnly | src/Stryng.Extensions/Validation/CharStringValidators.cs:127-128 | true iff non-empty and every character is in the given set |
| CharStringValidators.ContainsNone | src/Stryng.Extensions/Validation/CharStringValidators.cs:133-134 | true iff non-empty and no character is in the given set |
| CharStringValidators.NullOrEmptyFailsEverything | src/Stryng.Extensions/Validation/CharStringValidators.cs:16-134 | every predicate of the class is false for null and "" |
| CharStringValidators.AlphaIsAlphaNumeric | src/Stryng.Extensions/Validation/CharStringValidators.cs:16-17 | `IsAlpha` implies `IsAlphaNumeric` |
| CharStringValidators.UpperAlphaIsAlphaAndUpperCase | src/Stryng.Extensions/Validation/CharStringValidators.cs:22-30 | `IsUpperAlpha` implies `IsAlpha` and `IsUpperCase` |
| CharStringValidators.LowerAlphaIsAlphaAndLowerCase | src/Stryng.Extensions/Validation/CharStringValidators.cs:35-43 | `IsLowerAlpha` implies `IsAlpha` and `IsLowerCase` |
| CharStringValidators.BinaryIsNumericAndHexadecimal | src/Stryng.Extensions/Validation/CharStringValidators.cs:80-87 | `IsBinary` implies `IsNumeric` and `IsHexadecimal` |
| CharStringValidators.NumericHasDigits | src/Stryng.Extensions/Validation/CharStringValidators.cs:74-99 | `IsNumeric` implies `HasDigits` |
| CharStringValidators.AlphaHasLetters | src/Stryng.Extensions/Validation/CharStringValidators.cs:16-105 | `IsAlpha` implies `HasLetters` |
| CharStringValidators.HasSpecialCharsMonotone | src/Stryng.Extensions/Validation/CharStringValidators.cs:115-121 | adding extra characters never turns true into false |
| CharStringValidators.DefaultSpecialCharsAreNotLettersOrDigits | src/Stryng.Extensions/Validation/CharStringValidators.cs:11 | no character of the default special set is a letter or digit |
| CharStringValidators.EmptyCharacterSet | src/Stryng.Extensions/Validation/CharStringValidators.cs:127-134 | for non-empty input, `ContainsOnly` with no characters is false and `ContainsNone` is true |
| CharStringValidators.ContainsOnlyExcludesContainsNone | src/Stryng.Extensions/Validation/CharStringValidators.cs:127-134 | `ContainsOnly` and `ContainsNone` never both hold |
| CharStringValidators.LowerCaseIgnoresDigits | test/Stryng.Extensions.Tests/Validation/CharStringValidatorsTests.cs:35 | "abc123" is lower case but not lower alpha |
| CharStringValidators.UpperCaseIgnoresDigits | test/Stryng.Extensions.Tests/Validation/CharStringValidatorsTests.cs:42 | "ABC123" is upper case but not upper alpha |
| CharStringValidators.AlphaExamples | test/Stryng.Extensions.Tests/Validation/CharStringValidatorsTests.cs:10-11 | the library's `IsAlpha` expectations |
| CharStringValidators.UpperAlphaExamples | test/Stryng.Extensions.Tests/Validation/CharStringValidatorsTests.cs:19-21 | the library's `IsUpperAlpha` expectations |
| CharStringValidators.LowerAlphaExamples | test/Stryng.Extensions.Tests/Validation/CharStringValidatorsTests.cs:27-29 | the library's `IsLowerAlpha` expectations |
| CharStringValidators.CaseExamples | test/Stryng.Extensions.Tests/Validation/CharStringValidatorsTests.cs:36-43 | mixed-case inputs fail `IsLowerCase` and `IsUpperCase` |
| CharStringValidators.NumericExamples | test/Stryng.Extensions.Tests/Validation/CharStringValidatorsTests.cs:49-50 | the library's `IsNumeric` expectations |
| CharStringValidators.BinaryExamples | test/Stryng.Extensions.Tests/Validation/CharStringValidatorsTests.cs:56-57 | the library's `IsBinary` expectations |
| CharStringValidators.AlphaNumericExamples | test/Stryng.Extensions.Tests/Validation/CharStringValidatorsTests.cs:70-71 | the library's `IsAlphaNumeric` expectations |
| CharStringValidators.HexadecimalExamples | test/Stryng.Extensions.Tests/Validation/CharStringValidatorsTests.cs:63-64 | the library's `IsHexadecimal` expectations |
| CharStringValidators.HasDigitsExamples | test/Stryng.Extensions.Tests/Validation/CharStringValidatorsTests.cs:77-78 | the library's `HasDigits` expectations |
| CharStringValidators.HasLettersExamples | test/Stryng.Extensions.Tests/Validation/CharStringValidatorsTests.cs:84-85 | the library's `HasLetters` expectations |
| CharStringValidators.SpecialCharsExamples | test/Stryng.Extensions.Tests/Validation/CharStringValidatorsTests.cs:91-93 | "abc!" has a special character; "abc$" has one once '$' is added |
| CharStringValidators.NoSpecialCharsExample | test/Stryng.Extensions.Tests/Validation/CharStringValidatorsTests.cs:92 | "abc" has no special character |
| CharStringValidators.ContainsOnlyExamples | test/Stryng.Extensions.Tests/Validation/CharStringValidatorsTests.cs:99-100 | the library's `ContainsOnly` expectations |
| CharStringValidators.ContainsNoneExamples | test/Stryng.Extensions.Tests/Validation/CharStringValidatorsTests.cs:106-107 | the library's `ContainsNone` expectations |
| SubstringValidators.ContainsAny | src/Stryng.Extensions/Validation/SubstringValidators.cs:14-15 | true iff the input is non-empty and some candidate is a substring of it |
| SubstringValidators.ContainsAll | src/Stryng.Extensions/Validation/SubstringValidators.cs:20-21 | true iff the input is non-empty and every candidate is a substring of it |
| SubstringValidators.StartsWithAny | src/Stryng.Extensions/Validation/SubstringValidators.cs:26-33 | true iff the input is non-empty and begins, up to letter case, with some candidate |
| SubstringValidators.EndsWithAny | src/Stryng.Extensions/Validation/SubstringValidators.cs:38-45 | true iff the input is non-empty and ends, up to letter case, with some candidate |
| SubstringValidators.NullOrEmptyFailsEverything | src/Stryng.Extensions/Validation/SubstringValidators.cs:14-45 | all four are false for null and "", whatever the candidates |
| SubstringValidators.NoCandidates | src/Stryng.Extensions/Validation/SubstringValidators.cs:14-45 | with no candidates only `ContainsAll` holds |
| SubstringValidators.ContainsAllImpliesContainsAny | src/Stryng.Extensions/Validation/SubstringValidators.cs:14-21 | with at least one candidate, containing all implies containing one |
| SubstringValidators.EmptyCandidateMatches | src/Stryng.Extensions/Validation/SubstringValidators.cs:14-45 | the empty candidate matches every non-empty input for containment, prefix and suffix |
| SubstringValidators.StartsWithOwnPrefix | src/Stryng.Extensions/Validation/SubstringValidators.cs:32-33 | `p + rest` starts with any candidate equal to `p` up to case |
| SubstringValidators.EndsWithOwnSuffix | src/Stryng.Extensions/Validation/SubstringValidators.cs:44-45 | `rest + p` ends with any candidate equal to `p` up to case |
| SubstringValidators.ContainsAnyExample | test/Stryng.Extensions.Tests/Validation/SubstringValidatorsTests.cs:10 | "hello world" contains "world" |
| SubstringValidators.NotContainsAnyExample | test/Stryng.Extensions.Tests/Validation/SubstringValidatorsTests.cs:11 | "hello" contains neither "foo" nor "bar" |
| SubstringValidators.ContainsAllExample | test/Stryng.Extensions.Tests/Validation/SubstringValidatorsTests.cs:17 | "hello world" contains "hello" and "world" |
| SubstringValidators.NotContainsAllExample | test/Stryng.Extensions.Tests/Validation/SubstringValidatorsTests.cs:18 | "hello world" does not contain "foo" |
| SubstringValidators.StartsWithExample | test/Stryng.Extensions.Tests/Validation/SubstringValidatorsTests.cs:24 | "hello world" starts with "hello" |
| SubstringValidators.NotStartsWithExample | test/Stryng.Extensions.Tests/Validation/SubstringValidatorsTests.cs:25 | "world hello" starts with neither candidate |
| SubstringValidators.EndsWithExample | test/Stryng.Extensions.Tests/Validation/SubstringValidatorsTests.cs:31 | "hello world" ends with "world" |
| SubstringValidators.NotEndsWithExample | test/Stryng.Extensions.Tests/Validation/SubstringValidatorsTests.cs:32 | "hello world" ends with neither candidate |
| FormatValidators.IsEmail | src/Stryng.Extensions/Validation/FormatValidators.cs:19-25 | false for null and ""; a match contains '@'; the full characterisation is `IsEmailIsPlainEmail` |
| FormatValidators.MatchesToEnd | src/Stryng.Extensions/Validation/FormatValidators.cs:23 | `^...$` without `RegexOptions.Multiline`: the shape matches the whole text or the text minus one final '\n'; definition used by `IsEmailIsPlainEmail` and `UrlIff` |
| FormatValidators.EmailShape | src/Stryng.Extensions/Validation/FormatValidators.cs:23 | the pattern `[^@\s]+@[^@\s]+\.[^@\s]+` read literally (three runs around an '@' and a '.'); definition, related to `PlainEmail` by `EmailShapeIsPlainEmail` |
| FormatValidators.IsEmailIsPlainEmail | src/Stryng.Extensions/Validation/FormatValidators.cs:19-25 | `IsEmail` holds exactly for non-empty text that is a plain address (one '@' after a non-empty local part, no white space, an inner '.' in the domain), possibly followed by one '\n' |
| FormatValidators.EmailShapeIsPlainEmail | src/Stryng.Extensions/Validation/FormatValidators.cs:23 | the pattern `[^@\s]+@[^@\s]+\.[^@\s]+` matches exactly: a single '@' after a non-empty local part, no white space, and a '.' in the domain that is neither its first nor its last character |
| FormatValidators.EmailTrailingNewline | src/Stryng.Extensions/Validation/FormatValidators.cs:23-24 | `$` also accepts one final '\n' after a matching address, which the shape itself rejects |
| FormatValidators.EmailOfParts | src/Stryng.Extensions/Validation/FormatValidators.cs:23 | `local@domain.tld` with three non-empty parts free of '@' and white space is an email |
| FormatValidators.EmailExample | test/Stryng.Extensions.Tests/Validation/FormatValidatorsTests.cs:19 | "user@example.com" is an email |
| FormatValidators.NoAtExample | test/Stryng.Extensions.Tests/Validation/FormatValidatorsTests.cs:20 | "userexample.com" is not |
| FormatValidators.EmptyDomainExample | test/Stryng.Extensions.Tests/Validation/FormatValidatorsTests.cs:21 | "user@.com" is not |
| FormatValidators.NullOrEmptyIsNotEmail | test/Stryng.Extensions.Tests/Validation/FormatValidatorsTests.cs:22-23 | null and "" are not |
| FormatValidators.IsUrl | src/Stryng.Extensions/Validation/FormatValidators.cs:30-36 | false for null and ""; a match has at least eight characters; the full characterisation is `UrlIff` |
| FormatValidators.HostPart | src/Stryng.Extensions/Validation/FormatValidators.cs:34 | what follows "://" in the pattern: a first character that is not white space or one of `/$.?#`, a second that is not '\n', the rest free of white space; definition used by `UrlIff` |
| FormatValidators.UrlShape | src/Stryng.Extensions/Validation/FormatValidators.cs:34 | the pattern's three scheme alternatives, each followed by "://" and a host part; definition used by `UrlIff` |
| FormatValidators.UrlIff | src/Stryng.Extensions/Validation/FormatValidators.cs:30-36 | `IsUrl` holds exactly for http, https or ftp in any case, then "://", then a host part, possibly followed by one '\n' |
| FormatValidators.UrlOfParts | src/Stryng.Extensions/Validation/FormatValidators.cs:34 | http, https or ftp in any case, then "://", then a host part (first character not white space or `/$.?#`, second not '\n', the rest free of white space) is a URL, with or without one final '\n' |
| FormatValidators.SchemeSeparator | src/Stryng.Extensions/Validation/FormatValidators.cs:34 | a scheme prefix is followed by the characters ':', '/', '/' |
| FormatValidators.UrlInitial | src/Stryng.Extensions/Validation/FormatValidators.cs:34 | every URL begins with 'h' or 'f' in either case |
| FormatValidators.HttpExample | test/Stryng.Extensions.Tests/Validation/FormatValidatorsTests.cs:29 | "http://example.com" is a URL |
| FormatValidators.FtpExample | test/Stryng.Extensions.Tests/Validation/FormatValidatorsTests.cs:31 | "ftp://example.com/resource" is a URL |
| FormatValidators.NoSchemeExample | test/Stryng.Extensions.Tests/Validation/FormatValidatorsTests.cs:32 | "example.com" is not |
| FormatValidators.MissingSlashExample | test/Stryng.Extensions.Tests/Validation/FormatValidatorsTests.cs:33 | "http:/example.com" is not |
| FormatValidators.ShortHostExample | src/Stryng.Extensions/Validation/FormatValidators.cs:34 | "http://a" is not: the host needs two characters |
| FormatValidators.NullOrEmptyIsNotUrl | test/Stryng.Extensions.Tests/Validation/FormatValidatorsTests.cs:34-35 | null and "" are not |
| FormatValidators.IsIdentifier | src/Stryng.Extensions/Validation/FormatValidators.cs:53-65 | the scanning loop returns true iff the input is non-empty, starts with a letter or '_', and continues with letters, digits or '_' |
| FormatValidators.IdentifierExamples | test/Stryng.Extensions.Tests/Validation/FormatValidatorsTests.cs:50-54 | the library's identifier expectations |
| FormatValidators.IsStrongPassword | src/Stryng.Extensions/Validation/FormatValidators.cs:78-99 | true iff non-empty, at least `minLength` long, and each enabled requirement is met: an upper-case letter, a lower-case letter, a digit, a character that is not a letter or digit |
| FormatValidators.IsStrongPasswordDefault | src/Stryng.Extensions/Validation/FormatValidators.cs:78-84 | with the default arguments, a strong password is at least 8 characters long |
| FormatValidators.EmptyPasswordIsWeak | src/Stryng.Extensions/Validation/FormatValidators.cs:86-87 | null and "" fail, whatever the minimum |
| FormatValidators.NoRequirements | src/Stryng.Extensions/Validation/FormatValidators.cs:86-98 | with every requirement off, only non-emptiness and the length count |
| FormatValidators.FewerRequirements | src/Stryng.Extensions/Validation/FormatValidators.cs:89-98 | switching requirements off never turns true into false |
| FormatValidators.EachRequirementIsNecessary | src/Stryng.Extensions/Validation/FormatValidators.cs:89-98 | an enabled requirement the input lacks makes it fail |
| FormatValidators.SpecialCharsMeetSpecialRequirement | src/Stryng.Extensions/Validation/FormatValidators.cs:98 | a character from the special set meets the special requirement |
| FormatValidators.SpaceMeetsSpecialRequirement | src/Stryng.Extensions/Validation/FormatValidators.cs:98 | "Abcdef1 " is a strong password although a space is not in the special set |
| FormatValidators.StrongPasswordExample | test/Stryng.Extensions.Tests/Validation/FormatValidatorsTests.cs:61 | "Abcdef1!" is strong |
| FormatValidators.NoUpperExample | test/Stryng.Extensions.Tests/Validation/FormatValidatorsTests.cs:62 | no upper-case letter: weak |
| FormatValidators.NoLowerExample | test/Stryng.Extensions.Tests/Validation/FormatValidatorsTests.cs:63 | no lower-case letter: weak |
| FormatValidators.NoDigitExample | test/Stryng.Extensions.Tests/Validation/FormatValidatorsTests.cs:64 | no digit: weak |
| FormatValidators.NoSpecialExample | test/Stryng.Extensions.Tests/Validation/FormatValidatorsTests.cs:65 | no special character: weak |
| FormatValidators.ShortAndEmptyExamples | test/Stryng.Extensions.Tests/Validation/FormatValidatorsTests.cs:66-68 | too short, empty and null: weak |
| FormatValidators.CustomRequirementsExample | test/Stryng.Extensions.Tests/Validation/FormatValidatorsTests.cs:75 | "12345678" passes when only a digit is required |
| FormatValidators.NoSpecialDigitsExample | test/Stryng.Extensions.Tests/Validation/FormatValidatorsTests.cs:77 | "Abcdef12" fails the special requirement |
| FinancialValidators.CRem | src/Stryng.Extensions/Validation/FinancialValidators.cs:29 | C#'s `%`: agrees with the mathematical remainder on non-negative operands and stays strictly between `-m` and `m` |
| FinancialValidators.Aggregate97 | src/Stryng.Extensions/Validation/FinancialValidators.cs:27-30 | the `Aggregate` fold `(current * 10 + (c - '0')) % 97`, defined character by character; its meaning on digit strings is `Aggregate97Digits` |
| FinancialValidators.Aggregate97Digits | src/Stryng.Extensions/Validation/FinancialValidators.cs:27-30 | on a digit string the fold keeps the accumulator in [0, 96] and ends at `(seed * 10^n + value) % 97` |
| FinancialValidators.Aggregate97Append | src/Stryng.Extensions/Validation/FinancialValidators.cs:29 | folding `a + b` is folding `b` from the result of folding `a` |
| FinancialValidators.BigIntegerTryMod97 | src/Stryng.Extensions/Validation/FinancialValidators.cs:27-30 | on a digit string, the result is the string's decimal value mod 97 |
| FinancialValidators.BigIntegerTryMod97Append | src/Stryng.Extensions/Validation/FinancialValidators.cs:29 | fold(a + b) == (fold(a) * 10^\|b\| + value(b)) % 97 for digit strings |
| FinancialValidators.DecimalValueAppend | src/Stryng.Extensions/Validation/FinancialValidators.cs:22 | the decimal value of `a + b` is `value(a) * 10^\|b\| + value(b)` |
| FinancialValidators.DecimalText | src/Stryng.Extensions/Validation/FinancialValidators.cs:22 | `n.ToString()`: a digit string whose value is `n`, of one digit below 10 and two below 100 |
| FinancialValidators.Rearrange | src/Stryng.Extensions/Validation/FinancialValidators.cs:21 | the first four characters move to the end; the length is kept |
| FinancialValidators.Compact | src/Stryng.Extensions/Validation/FinancialValidators.cs:18 | `input.Replace(" ", "").ToUpperInvariant()`, a composition of `Remove` and `ToUpperInvariant`; its properties are theirs and `IsIbanDependsOnlyOnCompact` |
| FinancialValidators.Transliterate | src/Stryng.Extensions/Validation/FinancialValidators.cs:22 | an upper-case letter becomes the two digits of `c - 'A' + 10`; a non-letter is copied |
| FinancialValidators.NumericText | src/Stryng.Extensions/Validation/FinancialValidators.cs:22 | `string.Concat` of the transliterated characters, defined by recursion; properties in `NumericTextAppend` and `NumericTextDigits` |
| FinancialValidators.NumericTextAppend | src/Stryng.Extensions/Validation/FinancialValidators.cs:22 | transliteration distributes over concatenation |
| FinancialValidators.NumericTextDigits | src/Stryng.Extensions/Validation/FinancialValidators.cs:22 | upper-case letters and digits transliterate to a digit string |
| FinancialValidators.IsIban | src/Stryng.Extensions/Validation/FinancialValidators.cs:14-25 | false for null and white space; a valid IBAN has 15 to 34 characters once spaces are removed |
| FinancialValidators.IsIbanIsMod97 | src/Stryng.Extensions/Validation/FinancialValidators.cs:16-30 | for an alphanumeric input of valid length, `IsIban` holds iff the rearranged, transliterated number is 1 mod 97 |
| FinancialValidators.IsIbanDependsOnlyOnCompact | src/Stryng.Extensions/Validation/FinancialValidators.cs:18 | two inputs with the same space-free upper-cased form agree |
| FinancialValidators.IsIbanInsertSpace | src/Stryng.Extensions/Validation/FinancialValidators.cs:18 | inserting a space anywhere does not change the verdict |
| FinancialValidators.IsIbanIgnoresCase | src/Stryng.Extensions/Validation/FinancialValidators.cs:18 | changing the case of letters does not change the verdict |
| FinancialValidators.TooLongIban | src/Stryng.Extensions/Validation/FinancialValidators.cs:19 | more than 34 characters without a space is rejected |
| FinancialValidators.CompactOfGroups | src/Stryng.Extensions/Validation/FinancialValidators.cs:18 | an IBAN printed as groups of upper-case letters and digits joined by single spaces compacts to the groups' concatenation |
| FinancialValidators.RearrangeGroups | src/Stryng.Extensions/Validation/FinancialValidators.cs:21 | rearranging moves a four-character first group to the end |
| FinancialValidators.CharFold | src/Stryng.Extensions/Validation/FinancialValidators.cs:27-30 | the remainder computed character by character (a letter shifts by two decimal places) stays in [0, 96] |
| FinancialValidators.FoldByChars | src/Stryng.Extensions/Validation/FinancialValidators.cs:22-30 | transliterating then folding digit by digit equals folding the characters directly |
| FinancialValidators.Aggregate97Groups | src/Stryng.Extensions/Validation/FinancialValidators.cs:22-30 | folding the concatenation of groups equals folding group after group |
| FinancialValidators.IsIbanOfGroups | src/Stryng.Extensions/Validation/FinancialValidators.cs:16-30 | an IBAN printed in groups is valid iff folding its rearranged groups gives 1 |
| FinancialValidators.GbIbanExample | test/Stryng.Extensions.Tests/Validation/FinancialValidatorsTests.cs:10 | "GB82 WEST 1234 5698 7654 32" is a valid IBAN |
| FinancialValidators.DeIbanExample | test/Stryng.Extensions.Tests/Validation/FinancialValidatorsTests.cs:11 | "DE89 3704 0044 0532 0130 00" is a valid IBAN |
| FinancialValidators.FrIbanExample | test/Stryng.Extensions.Tests/Validation/FinancialValidatorsTests.cs:12 | "FR14 2004 1010 0505 0001 3M02 606" is a valid IBAN |
| FinancialValidators.GbShortIbanExample | test/Stryng.Extensions.Tests/Validation/FinancialValidatorsTests.cs:19 | "GB82 WEST 1234 5698 7654" is rejected: its 20 characters are a valid length, but the remainder is 79 |
| FinancialValidators.BlankOrShortIbanExamples | test/Stryng.Extensions.Tests/Validation/FinancialValidatorsTests.cs:18-21 | null, "" and "INVALIDIBAN" are rejected |
| FinancialValidators.LongIbanExample | test/Stryng.Extensions.Tests/Validation/FinancialValidatorsTests.cs:22 | the 42-character example is rejected |
| FinancialValidators.BicShape | src/Stryng.Extensions/Validation/FinancialValidators.cs:37 | the pattern `[A-Z]{4}[A-Z]{2}[A-Z0-9]{2}([A-Z0-9]{3})?` with `IgnoreCase`: 8 or 11 characters, six letters then letters or digits; definition used by `IsBic` |
| FinancialValidators.IsBic | src/Stryng.Extensions/Validation/FinancialValidators.cs:35-38 | false for null and white space; true iff the text, or the text minus one final '\n', has the BIC shape; so a match is 8, 9, 11 or 12 characters whose first six are letters |
| FinancialValidators.IsBicIgnoresCase | src/Stryng.Extensions/Validation/FinancialValidators.cs:37 | `RegexOptions.IgnoreCase`: two texts that agree up to letter case are both BICs or neither |
| FinancialValidators.IsBicOfUpper | src/Stryng.Extensions/Validation/FinancialValidators.cs:37 | a text and its upper-cased form are both BICs or neither |
| FinancialValidators.DeutscheBankBic | test/Stryng.Extensions.Tests/Validation/FinancialValidatorsTests.cs:28 | "DEUTDEFF" is a BIC |
| FinancialValidators.NedbankBic | test/Stryng.Extensions.Tests/Validation/FinancialValidatorsTests.cs:29 | "NEDSZAJJXXX" is a BIC |
| FinancialValidators.BankOfAmericaBic | test/Stryng.Extensions.Tests/Validation/FinancialValidatorsTests.cs:30 | "BOFAUS3N" is a BIC |
| FinancialValidators.NotBicExamples | test/Stryng.Extensions.Tests/Validation/FinancialValidatorsTests.cs:36-40 | "INVALIDBIC", "DEUTDE", "DEUTDEFF1234", "" and null are not |
| FinancialValidators.IsCurrency | src/Stryng.Extensions/Validation/FinancialValidators.cs:43-44 | true iff the input is not null or white space and its upper-cased form is in the code set |
| FinancialValidators.IsCurrencyIgnoresCase | src/Stryng.Extensions/Validation/FinancialValidators.cs:44 | inputs that agree up to letter case get the same verdict |
| FinancialValidators.CurrencyExamples | test/Stryng.Extensions.Tests/Validation/FinancialValidatorsTests.cs:46-57 | with a code set holding USD, EUR and JPY but not XXX or USDOLLAR, the library's expectations hold |
| TextGenerator.LettersAreLetters | src/Stryng.Extensions/Generation/TextGenerator.cs:27 | every character of the alpha alphabet is a letter |
| TextGenerator.LettersDigitsAreLettersOrDigits | src/Stryng.Extensions/Generation/TextGenerator.cs:18 | every character of the alphanumeric alphabet is a letter or digit |
| TextGenerator.LowerDigitsAreLowerOrDigits | src/Stryng.Extensions/Generation/TextGenerator.cs:149 | every character of the private generator's alphabet is a lower-case letter or digit |
| TextGenerator.Draw | src/Stryng.Extensions/Generation/TextGenerator.cs:19 | one character of the alphabet per random pick |
| TextGenerator.DrawReachesEveryString | src/Stryng.Extensions/Generation/TextGenerator.cs:19 | every string over the alphabet is drawn by some picks |
| TextGenerator.GenerateRandomString | src/Stryng.Extensions/Generation/TextGenerator.cs:16-20 | exactly `length` characters, each a letter or digit |
| TextGenerator.GenerateRandomAlpha | src/Stryng.Extensions/Generation/TextGenerator.cs:25-29 | exactly `length` characters, each a letter |
| TextGenerator.GenerateRandomAlphaNumeric | src/Stryng.Extensions/Generation/TextGenerator.cs:34-37 | exactly `length` characters, each a letter or digit |
| TextGenerator.GenerateRandomPassword | src/Stryng.Extensions/Generation/TextGenerator.cs:42-49 | exactly `length` characters from the letters and digits, plus the special characters when `includeSpecial` is set, and only letters and digits otherwise |
| TextGenerator.PasswordMayHoldSpecial | src/Stryng.Extensions/Generation/TextGenerator.cs:47 | with `includeSpecial`, every special character can occur |
| TextGenerator.GenerateLoremIpsum | src/Stryng.Extensions/Generation/TextGenerator.cs:98-104 | "" for `words <= 0`; otherwise splitting on ' ' gives `words` words, each from the corpus, and joining them with single spaces gives the text back |
| TextGenerator.LoremWordsAreWords | src/Stryng.Extensions/Generation/TextGenerator.cs:103 | every corpus word is non-empty and free of spaces |
| TextGenerator.GenerateRandomPhoneNumber | src/Stryng.Extensions/Generation/TextGenerator.cs:140-144 | ends in ten digits; exactly ten characters iff the country code is null or white space; otherwise '+' and the code come first |
| TextGenerator.GenerateRandomEmail | src/Stryng.Extensions/Generation/TextGenerator.cs:130-135 | `user@domain.com` with a 6-12 and a 5-8 character lower-case alphanumeric part, and `IsEmail` accepts it |
| TextGenerator.EmailOfLowerDigits | src/Stryng.Extensions/Generation/TextGenerator.cs:134 | any two non-empty lower-case alphanumeric parts give an address `IsEmail` accepts |
| TextGenerator.Reversed | src/Stryng.Extensions/Generation/TextGenerator.cs:58 | same length, and position `i` holds the character at `n - 1 - i` |
| TextGenerator.ReversedInvolution | src/Stryng.Extensions/Generation/TextGenerator.cs:54-60 | reversing twice gives the string back |
| TextGenerator.ReverseInPlace | src/Stryng.Extensions/Generation/TextGenerator.cs:58 | the array afterwards holds the reverse of its old contents |
| TextGenerator.Reverse | src/Stryng.Extensions/Generation/TextGenerator.cs:54-60 | null stays null; otherwise the result is the reversed string ("" included) |
| TextGenerator.ReverseExample | test/Stryng.Extensions.Tests/Generation/TextGeneratorTests.cs:50-51 | "abc" reverses to "cba", "" to "" |
| TextGenerator.Keep | src/Stryng.Extensions/Generation/TextGenerator.cs:72-79 | the kept characters all satisfy the filter, and there are no more than in the input |
| TextGenerator.KeepAppend | src/Stryng.Extensions/Generation/TextGenerator.cs:72-79 | filtering distributes over concatenation |
| TextGenerator.KeepKeep | src/Stryng.Extensions/Generation/TextGenerator.cs:83 | filtering by a stricter predicate after a looser one is filtering by the stricter one |
| TextGenerator.DashWhiteSpace | src/Stryng.Extensions/Generation/TextGenerator.cs:82 | `Regex.Replace(s, \s+, "-")` leaves no white space |
| TextGenerator.DashWhiteSpaceKeepsLettersAndDigits | src/Stryng.Extensions/Generation/TextGenerator.cs:82 | the replacement keeps every letter and digit, in order |
| TextGenerator.DashOneSpace | src/Stryng.Extensions/Generation/TextGenerator.cs:82 | a single space between two space-free words becomes one '-' |
| TextGenerator.SlugText | src/Stryng.Extensions/Generation/TextGenerator.cs:65-85 | "" for null or white space; otherwise only lower-case letters, digits and '-' |
| TextGenerator.Slugify | src/Stryng.Extensions/Generation/TextGenerator.cs:65-85 | the builder loop and the replacements compute `SlugText` |
| TextGenerator.KeepLower | src/Stryng.Extensions/Generation/TextGenerator.cs:84 | lower-casing commutes with keeping letters and digits |
| TextGenerator.SlugKeepsLettersAndDigits | src/Stryng.Extensions/Generation/TextGenerator.cs:72-84 | the slug's letters and digits are exactly the lower-cased letters and digits of the normalised input |
| TextGenerator.SlugifyExamples | test/Stryng.Extensions.Tests/Generation/TextGeneratorTests.cs:58-60 | "Hello World!" becomes "hello-world"; "" and "   " become "" |
| TextGenerator.SpacedIsJoin | src/Stryng.Extensions/Generation/TextGenerator.cs:179 | the builder's `word + " "` appends are the single-space join plus one trailing space |
| TextGenerator.WrapTextAsWritten | src/Stryng.Extensions/Generation/TextGenerator.cs:160-184 | the lines as the code builds them: none for null, white space or a non-positive length, otherwise the greedy groups each rendered and passed through `TrimEnd`; specifies the `WrapText` loop |
| TextGenerator.WrapTextIntended | src/Stryng.Extensions/Generation/TextGenerator.cs:153-155 | "lines of a maximum specified length, preserving words": the same greedy groups joined by single spaces without trimming; its properties are `WrapTextIntendedIsWellWrapped` |
| TextGenerator.WrapText | src/Stryng.Extensions/Generation/TextGenerator.cs:160-184 | the loop over the words yields exactly `WrapTextAsWritten`: nothing for null, white space or a non-positive length, otherwise the trimmed greedy lines |
| TextGenerator.LoopStep | src/Stryng.Extensions/Generation/TextGenerator.cs:168-180 | one word of the loop: a line is flushed exactly when the word does not fit and the line is non-empty |
| TextGenerator.GroupedKeepsWords | src/Stryng.Extensions/Generation/TextGenerator.cs:165-183 | the lines' words, in order, are the input's words: none split, dropped or reordered |
| TextGenerator.GroupedIsGreedy | src/Stryng.Extensions/Generation/TextGenerator.cs:170-176 | every group is non-empty, a group of two or more words fits, and each line after the first starts because its first word would not fit on the previous one |
| TextGenerator.WrapTextIntendedIsWellWrapped | src/Stryng.Extensions/Generation/TextGenerator.cs:160-184 | with the words' own trailing white space kept, the lines hold the input's words in order, each line is its words joined by single spaces, multi-word lines are at most `max - 1` long, and each break is forced |
| TextGenerator.AsWrittenTrimsIntended | src/Stryng.Extensions/Generation/TextGenerator.cs:174 | each line the library yields is the corresponding intended line passed through `TrimEnd` |
| TextGenerator.AsWrittenMatchesIntended | src/Stryng.Extensions/Generation/TextGenerator.cs:174 | when no word ends in white space, `TrimEnd` changes nothing and the library's lines are the intended ones |
| TextGenerator.WrapTextLinesFit | src/Stryng.Extensions/Generation/TextGenerator.cs:170-179 | when no word is longer than the limit, no line is |
| TextGenerator.VerticalTabWords | src/Stryng.Extensions/Generation/TextGenerator.cs:165 | the separators leave a vertical tab inside a word |
| TextGenerator.WrapTwoWordsAsWritten | src/Stryng.Extensions/Generation/TextGenerator.cs:168-183 | two words that do not fit together give two lines, each trimmed |
| TextGenerator.WrapTwoWordsIntended | src/Stryng.Extensions/Generation/TextGenerator.cs:168-183 | the intended wrapping gives the two words as two lines |
| TextGenerator.WrapTextEmptyLine | src/Stryng.Extensions/Generation/TextGenerator.cs:174-183 | "ab \v" at width 3 yields the lines "ab" and "", where the intended lines are "ab" and "\v" |
| EnumFlags.Not | src/Stryng.Extensions/Enums/EnumExtensions.cs:94 | `~a` has exactly the bits `a` lacks |
| EnumFlags.HasFlagFast | src/Stryng.Extensions/Enums/EnumExtensions.cs:76-81 | `(value & flag) == flag` on the two 64-bit patterns; definition, characterised by `HasFlagMeansEveryBit` |
| EnumFlags.HasFlagMeansEveryBit | src/Stryng.Extensions/Enums/EnumExtensions.cs:76-81 | `(v & f) == f` iff every bit of `f` is set in `v` |
| EnumFlags.HasNoFlag | src/Stryng.Extensions/Enums/EnumExtensions.cs:76-81 | every value has the empty flag |
| EnumFlags.AddFlag | src/Stryng.Extensions/Enums/EnumExtensions.cs:83-88 | the bitwise or of `v` and `f` has both `v` and `f` |
| EnumFlags.AddFlagIsLeast | src/Stryng.Extensions/Enums/EnumExtensions.cs:83-88 | any value having both `v` and `f` has their bitwise or |
| EnumFlags.RemoveFlag | src/Stryng.Extensions/Enums/EnumExtensions.cs:90-95 | `v & ~f` is part of `v`, shares no bit with `f`, and keeps every bit outside `f` |
| EnumFlags.RemoveFlagIsGreatest | src/Stryng.Extensions/Enums/EnumExtensions.cs:90-95 | any part of `v` disjoint from `f` is part of `v & ~f` |
| EnumFlags.RemovedFlagIsGone | src/Stryng.Extensions/Enums/EnumExtensions.cs:90-95 | after removing a non-empty flag, the value no longer has it |
| EnumFlags.ToggleFlag | src/Stryng.Extensions/Enums/EnumExtensions.cs:97-102 | `v ^ f` flips the bits of `f` and keeps every other bit |
| EnumFlags.ToggleTwice | src/Stryng.Extensions/Enums/EnumExtensions.cs:97-102 | toggling twice gives the value back |
| EnumFlags.RemoveUndoesAdd | src/Stryng.Extensions/Enums/EnumExtensions.cs:83-95 | removing an added flag restores the value iff the value shared no bit with the flag |
| EnumFlags.AddUndoesRemove | src/Stryng.Extensions/Enums/EnumExtensions.cs:83-95 | adding a removed flag restores the value iff the value had the flag |
| EnumFlags.FlagExamples | test/Stryng.Extensions.Tests/Enums/EnumExtensionsTests.cs:115-149 | the library's flag expectations for A, B and C |
| EnumExtensions.GetField | src/Stryng.Extensions/Enums/EnumExtensions.cs:34 | a found field has the requested name; none is found only when no field has it |
| EnumExtensions.GetDescription | src/Stryng.Extensions/Enums/EnumExtensions.cs:32-39 | the result is the input text or the description of the field of that name |
| EnumExtensions.GetDisplayName | src/Stryng.Extensions/Enums/EnumExtensions.cs:41-48 | the result is `GetDescription` or the display name of the field of that name |
| EnumExtensions.GetFieldOfMember | src/Stryng.Extensions/Enums/EnumExtensions.cs:34 | with distinct names, looking up a member's name finds that member |
| EnumExtensions.MetadataFallback | src/Stryng.Extensions/Enums/EnumExtensions.cs:32-48 | a member's description, else its name; its display name, else that description |
| EnumExtensions.UnknownTextFallsBack | src/Stryng.Extensions/Enums/EnumExtensions.cs:35 | a text naming no member comes back unchanged from both lookups |
| EnumExtensions.DescriptionsOf | src/Stryng.Extensions/Enums/EnumExtensions.cs:65-70 | succeeds iff the values are distinct; the keys are the values and each maps to its member's description |
| EnumExtensions.ToDictionary | src/Stryng.Extensions/Enums/EnumExtensions.cs:63-71 | succeeds iff the values are distinct (`ToDictionary` throws on a repeated key), with the members' values as keys |
| EnumExtensions.ToDictionaryDescribesEveryMember | src/Stryng.Extensions/Enums/EnumExtensions.cs:63-71 | each value maps to its member's description, or to its name without one |
| EnumExtensions.ToEnum | src/Stryng.Extensions/Enums/EnumExtensions.cs:9-16 | null or white space fails with `ArgumentException("Value cannot be null or empty.", "value")` before any parse; anything else is the parse's result |
| EnumExtensions.SampleEnumIsWellFormed | test/Stryng.Extensions.Tests/Enums/Samples/Enums.cs:15-26 | the sample enum's names and values are distinct |
| EnumExtensions.MetadataExamples | test/Stryng.Extensions.Tests/Enums/EnumExtensionsTests.cs:54-67 | the library's description and display-name expectations for the sample enum |
| EnumExtensions.ToDictionaryExample | test/Stryng.Extensions.Tests/Enums/EnumExtensionsTests.cs:99-105 | the sample enum's dictionary maps 1, 2 and 4 to "First Value", "Second Value" and "Third" |
| EnumExtensions.ToEnumRejectsBlank | test/Stryng.Extensions.Tests/Enums/EnumExtensionsTests.cs:19-20 | "", null and white space are rejected |

## Left out

- **Unicode character classes.** Letters, digits and case are the ASCII ones. `char.IsLetter`, `char.IsUpper` and the culture case mappings over the rest of Unicode come from tables that are not part of this model. White space is the full .NET set.
- **Non-ASCII case folding.** `RegexOptions.IgnoreCase` and the culture-sensitive `StartsWith`/`EndsWith(…, true, culture)` fold only ASCII letters here.
- **UTF-16.** Strings are sequences of Unicode scalar values, not UTF-16 code units, so surrogate pairs are not modelled (this matters for `Reverse`).
- **Randomness.** Every value drawn from `Random.Shared` is a parameter (`picks`) whose entries lie in the drawn range. The distribution and thread safety are not modelled.
- **Sentences and paragraphs.** `GenerateRandomSentence` and `GenerateRandomParagraph` only add capitalisation and a final '.' around `GenerateLoremIpsum`.
- `TextGenerator.GenerateRandomString`, `GenerateRandomAlpha`, `GenerateRandomAlphaNumeric`, `GenerateRandomPassword`: the length is a `nat`. A negative length makes `Enumerable.Range` throw, and that exception is not modelled.
- `TextGenerator.WrapText`: the C# iterator is lazy. The model returns the whole sequence of lines at once.
- **`Slugify` normalisation.**
  - `Normalize(FormD)` is the parameter `formD`.
  - `char.IsLetterOrDigit` together with the non-spacing-mark test is the parameter `letterOrDigit`.
  - `Normalize(FormC)` after the filter is taken as the identity.
- `TextGenerator.ToTitleCase`: it relies on `TextInfo.ToTitleCase`, whose culture rules are not in the repository.
- `FormatValidators.IsGuid` and `IsBase64`: they delegate to `Guid.TryParse` and `Convert.TryFromBase64String`, which are not part of this model.
- `SubstringValidators.MatchesRegex`: it runs an arbitrary pattern through the .NET regex engine.
- `StructuredDataValidators` (`IsJson`, `IsXml`): these wrap JSON and XML parsers that are not part of this model.
- **Culture overloads.** The overloads of `IsUpperAlpha`, `IsLowerAlpha`, `IsLowerCase`, `IsUpperCase`, `StartsWithAny` and `EndsWithAny` that take a `CultureInfo` are modelled only for the invariant culture.
- `FinancialValidators.IsIban`: a non-ASCII letter, which `char.IsLetter` would transliterate, is copied through unchanged because the model's letters are ASCII.
- `FinancialValidators.IsCurrency`: the ISO 4217 code set `CurrencyCodes.All` is a parameter, because that file is not part of this model.
- **Enum reflection.**
  - `GetType().GetField`, `GetCustomAttribute`, `Enum.GetValues` and `Enum.GetNames` are replaced by an explicit table of fields, each with its name, value, description and display name.
  - `value.ToString()` is a parameter.
  - `GetAttribute`, `GetValues`, `GetNames` and `IsDefined` are thin reflection calls and are not modelled separately.
- `EnumExtensions.ToEnum`: `Enum.Parse`, with its numeric strings, comma lists and `ignoreCase`, is the parameter `parse`. `TryToEnum` and `ToEnumOrDefault` only wrap `Enum.TryParse` and are left out.
- **Enum values as `long`.**
  - `Convert.ToInt64` overflows on a `ulong`-backed enum, and that overflow is not modelled.
  - A `long` is modelled as the set of its 1-bit positions below 64. So `&`, `|`, `^` and `~` are intersection, union, symmetric difference and complement. `Enum.ToObject` is the identity on these bit patterns.

## Findings

| source | as written | input that shows it | evidently intended | confidence | as-written member | corrected member |
|---|---|---|---|---|---|---|
| src/Stryng.Extensions/Generation/TextGenerator.cs:174 | each flushed line goes through `TrimEnd()`. That also strips white space that belongs to a word, because the split only separates on ' ', '\t', '\r' and '\n'. A word made of a vertical tab therefore becomes an empty line and is lost | `WrapText("ab \v", 3)` yields "ab" and "" | only the trailing space the builder appends is removed, giving "ab" and "\v": no empty line and no lost word | not executed | TextGenerator.WrapTextEmptyLine | TextGenerator.WrapTextIntendedIsWellWrapped |
