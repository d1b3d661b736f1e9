/**
 * IBAN, BIC and currency-code validation.
 *
 * `IsIban` is the ISO 7064 MOD 97-10 check that ISO 13616 prescribes for IBAN
 * check digits, computed by a digit-by-digit remainder fold instead of a big
 * integer.  `IsBic` is the ISO 9362 shape, `IsCurrency` a lookup in the ISO 4217
 * code set, which is a parameter here.
 */
module FinancialValidators {
  import opened Wrappers
  import opened Chars
  import opened Strings
  import Enumerable

  const IbanMinLength: nat := 15
  const IbanMaxLength: nat := 34

  /* ---------- Decimal strings and their values ---------- */

  predicate AllDigits(s: string) {
    forall i :: 0 <= i < |s| ==> IsDigit(s[i])
  }

  function Pow10(n: nat): nat
  {
    if n == 0 then 1 else 10 * Pow10(n - 1)
  }

  /** The number a string of decimal digits denotes (most significant digit first). */
  function DecimalValue(s: string): nat
    requires AllDigits(s)
  {
    if s == [] then 0
    else DecimalValue(s[..|s| - 1]) * 10 + (s[|s| - 1] as int - '0' as int)
  }

  /** `n.ToString()` for a non-negative `int`. */
  function DecimalText(n: nat): (t: string)
    ensures t != [] && AllDigits(t)
    ensures DecimalValue(t) == n
    ensures n < 10 ==> |t| == 1
    ensures 10 <= n < 100 ==> |t| == 2
  {
    if n < 10 then [DigitChar(n)]
    else
      var t := DecimalText(n / 10) + [DigitChar(n % 10)];
      assert t[..|t| - 1] == DecimalText(n / 10);
      t
  }

  lemma {:induction false} DecimalValueAppend(a: string, b: string)
    requires AllDigits(a) && AllDigits(b)
    ensures AllDigits(a + b)
    ensures DecimalValue(a + b) == DecimalValue(a) * Pow10(|b|) + DecimalValue(b)
    decreases |b|
  {
    if b == [] {
      assert a + b == a;
    } else {
      var b' := b[..|b| - 1];
      var d := b[|b| - 1] as int - '0' as int;
      assert (a + b)[..|a + b| - 1] == a + b';
      assert (a + b)[|a + b| - 1] == b[|b| - 1];
      DecimalValueAppend(a, b');
      assert b[..|b| - 1] == b';
      ShiftDigit(DecimalValue(a), Pow10(|b'|), DecimalValue(b'), d);
    }
  }

  /** Appending a digit `d` to the lower part of `hi * p + lo` scales the upper part by ten. */
  lemma ShiftDigit(hi: int, p: int, lo: int, d: int)
    ensures (hi * p + lo) * 10 + d == hi * (10 * p) + (lo * 10 + d)
  {
  }

  /* ---------- The remainder fold (BigIntegerTryMod97) ---------- */

  /** C#'s `%` on `int`: truncates toward zero, so the remainder has the dividend's sign. */
  function CRem(a: int, m: int): (r: int)
    requires m > 0
    ensures a >= 0 ==> r == a % m
    ensures -m < r < m
  {
    if a >= 0 then a % m else -((-a) % m)
  }

  /** One step of the fold: `(current * 10 + (c - '0')) % 97`. */
  function Mod97Step(current: int, c: char): int {
    CRem(current * 10 + (c as int - '0' as int), 97)
  }

  /** `Aggregate(seed, Mod97Step)` over the characters, left to right. */
  function Aggregate97(seed: int, s: string): int
    decreases |s|
  {
    if s == [] then seed else Aggregate97(Mod97Step(seed, s[0]), s[1..])
  }

  lemma {:induction false} ModMultipleAdd(a: int, b: int)
    ensures (a * 97 + b) % 97 == b % 97
  {
  }

  lemma {:induction false} ModScale(x: int, k: nat, y: int)
    ensures ((x % 97) * k + y) % 97 == (x * k + y) % 97
  {
    var q, r := x / 97, x % 97;
    assert x == q * 97 + r;
    assert x * k == (q * k) * 97 + r * k by {
      assert x * k == (q * 97 + r) * k;
      assert (q * 97 + r) * k == (q * 97) * k + r * k;
      assert (q * 97) * k == (q * k) * 97;
    }
    ModMultipleAdd(q * k, r * k + y);
  }

  /** The fold over a digit string from a seed in [0, 96]. */
  lemma {:induction false} Aggregate97Digits(seed: int, s: string)
    requires 0 <= seed < 97
    requires AllDigits(s)
    ensures Aggregate97(seed, s) == (seed * Pow10(|s|) + DecimalValue(s)) % 97
    decreases |s|
  {
    if s != [] {
      var d := s[0] as int - '0' as int;
      var next := Mod97Step(seed, s[0]);
      assert IsDigit(s[0]);
      Aggregate97Digits(next, s[1..]);
      LeadingDigit(s);
      Mod97Shift(seed, d, next, Pow10(|s| - 1), DecimalValue(s[1..]), Pow10(|s|), DecimalValue(s));
    }
  }

  /** A digit string is its first digit, scaled, plus the value of the rest. */
  lemma LeadingDigit(s: string)
    requires s != [] && AllDigits(s)
    ensures AllDigits(s[1..])
    ensures DecimalValue(s) == (s[0] as int - '0' as int) * Pow10(|s| - 1) + DecimalValue(s[1..])
    ensures Pow10(|s|) == 10 * Pow10(|s| - 1)
  {
    var rest := s[1..];
    assert s == [s[0]] + rest;
    DecimalValueAppend([s[0]], rest);
    assert DecimalValue([s[0]]) == s[0] as int - '0' as int by {
      assert [s[0]][..0] == [];
    }
  }

  /** The arithmetic of one step of the fold: reducing the running value early does not
      change the remainder. */
  lemma Mod97Shift(seed: int, d: int, next: int, p: nat, lo: int, q: int, v: int)
    requires 0 <= seed && 0 <= d
    requires next == CRem(seed * 10 + d, 97)
    requires q == 10 * p && v == d * p + lo
    ensures (next * p + lo) % 97 == (seed * q + v) % 97
  {
    ModScale(seed * 10 + d, p, lo);
    ShiftSeed(seed, d, p, lo);
  }

  lemma ShiftSeed(seed: int, d: int, p: int, lo: int)
    ensures (seed * 10 + d) * p + lo == seed * (10 * p) + (d * p + lo)
  {
  }

  /** The fold over a concatenation is the fold over the second part seeded by the first. */
  lemma {:induction false} Aggregate97Append(seed: int, a: string, b: string)
    ensures Aggregate97(seed, a + b) == Aggregate97(Aggregate97(seed, a), b)
    decreases |a|
  {
    if a == [] {
      assert a + b == b;
    } else {
      assert (a + b)[0] == a[0];
      assert (a + b)[1..] == a[1..] + b;
      Aggregate97Append(Mod97Step(seed, a[0]), a[1..], b);
    }
  }

  /** `BigIntegerTryMod97`: on a digit string, the remainder of its value modulo 97. */
  function BigIntegerTryMod97(numericIban: string): (r: int)
    ensures AllDigits(numericIban) ==> 0 <= r < 97 && r == DecimalValue(numericIban) % 97
  {
    if AllDigits(numericIban) then Aggregate97Digits(0, numericIban); Aggregate97(0, numericIban)
    else Aggregate97(0, numericIban)
  }

  /** Remainders compose over concatenation: fold(a + b) == (fold(a) * 10^|b| + value(b)) % 97. */
  lemma {:induction false} BigIntegerTryMod97Append(a: string, b: string)
    requires AllDigits(a) && AllDigits(b)
    ensures BigIntegerTryMod97(a + b) == (BigIntegerTryMod97(a) * Pow10(|b|) + DecimalValue(b)) % 97
  {
    DecimalValueAppend(a, b);
    ModScale(DecimalValue(a), Pow10(|b|), DecimalValue(b));
  }

  /* ---------- IsIban ---------- */

  /** `input.Replace(" ", string.Empty).ToUpperInvariant()`. */
  function Compact(input: string): string {
    ToUpperInvariant(Remove(input, ' '))
  }

  /** `iban[4..] + iban[..4]`: country code and check digits move to the end. */
  function Rearrange(iban: string): (r: string)
    requires |iban| >= 4
    ensures |r| == |iban|
    ensures r[|r| - 4..] == iban[..4] && r[..|r| - 4] == iban[4..]
  {
    iban[4..] + iban[..4]
  }

  /** A letter becomes the decimal text of `c - 'A' + 10`; anything else is kept. */
  function Transliterate(c: char): (t: string)
    ensures IsUpper(c) ==> |t| == 2 && AllDigits(t) && DecimalValue(t) == c as int - 'A' as int + 10
    ensures !IsLetter(c) ==> t == [c]
  {
    if IsLetter(c) then DecimalText(c as int - 'A' as int + 10) else [c]
  }

  /** `string.Concat(s.Select(Transliterate))`. */
  function NumericText(s: string): string
  {
    if s == [] then [] else Transliterate(s[0]) + NumericText(s[1..])
  }

  lemma {:induction false} NumericTextAppend(a: string, b: string)
    ensures NumericText(a + b) == NumericText(a) + NumericText(b)
  {
    if a == [] {
      assert a + b == b;
    } else {
      assert (a + b)[0] == a[0];
      assert (a + b)[1..] == a[1..] + b;
      NumericTextAppend(a[1..], b);
    }
  }

  /** Upper-case letters and digits transliterate to a digit string. */
  lemma {:induction false} NumericTextDigits(s: string)
    requires forall i :: 0 <= i < |s| ==> IsUpper(s[i]) || IsDigit(s[i])
    ensures AllDigits(NumericText(s))
  {
    if s != [] {
      NumericTextDigits(s[1..]);
      var a, b := Transliterate(s[0]), NumericText(s[1..]);
      assert forall i :: 0 <= i < |a + b| ==> (a + b)[i] == if i < |a| then a[i] else b[i - |a|];
    }
  }

  /** `FinancialValidators.IsIban`. */
  function IsIban(input: Option<string>): (r: bool)
    ensures IsNullOrWhiteSpace(input) ==> !r
    ensures r ==> IbanMinLength <= |Compact(input.value)| <= IbanMaxLength
  {
    if IsNullOrWhiteSpace(input) then false
    else
      var iban := Compact(input.value);
      if |iban| < IbanMinLength || |iban| > IbanMaxLength then false
      else BigIntegerTryMod97(NumericText(Rearrange(iban))) == 1
  }

  /** On an upper-cased alphanumeric IBAN of valid length, IsIban is exactly MOD 97-10. */
  lemma IsIbanIsMod97(input: string)
    requires !IsNullOrWhiteSpace(Some(input))
    requires IbanMinLength <= |Compact(input)| <= IbanMaxLength
    requires forall i :: 0 <= i < |Compact(input)| ==> IsLetterOrDigit(Compact(input)[i])
    ensures AllDigits(NumericText(Rearrange(Compact(input))))
    ensures IsIban(Some(input)) <==> DecimalValue(NumericText(Rearrange(Compact(input)))) % 97 == 1
  {
    var iban := Compact(input);
    var r := Rearrange(iban);
    forall i | 0 <= i < |r| ensures IsUpper(r[i]) || IsDigit(r[i]) {
      assert r[i] == if i < |iban| - 4 then iban[i + 4] else iban[i - (|iban| - 4)];
    }
    NumericTextDigits(r);
  }

  /* ---------- Space and case insensitivity ---------- */

  lemma {:induction false} AllWhiteSpaceCompact(s: string)
    ensures Enumerable.All(s, IsWhiteSpace) <==> Enumerable.All(Compact(s), IsWhiteSpace)
  {
    AllWhiteSpaceRemove(s);
    AllWhiteSpaceUpper(Remove(s, ' '));
  }

  lemma {:induction false} AllWhiteSpaceRemove(s: string)
    ensures Enumerable.All(s, IsWhiteSpace) == Enumerable.All(Remove(s, ' '), IsWhiteSpace)
  {
    if s != [] {
      AllWhiteSpaceRemove(s[1..]);
      var h := if s[0] == ' ' then [] else [s[0]];
      assert s == [s[0]] + s[1..];
      Enumerable.AllAppend([s[0]], s[1..], IsWhiteSpace);
      Enumerable.AllAppend(h, Remove(s[1..], ' '), IsWhiteSpace);
    }
  }

  /** Inserting or deleting spaces and changing the case of letters leaves IsIban unchanged. */
  lemma IsIbanDependsOnlyOnCompact(s: string, t: string)
    requires Compact(s) == Compact(t)
    ensures IsIban(Some(s)) == IsIban(Some(t))
  {
    AllWhiteSpaceCompact(s);
    AllWhiteSpaceCompact(t);
  }

  lemma {:induction false} CompactInsertSpace(s: string, k: nat)
    requires k <= |s|
    ensures Compact(s[..k] + " " + s[k..]) == Compact(s)
  {
    RemoveInsertSpace(s, k);
  }

  lemma {:induction false} RemoveInsertSpace(s: string, k: nat)
    requires k <= |s|
    ensures Remove(s[..k] + " " + s[k..], ' ') == Remove(s, ' ')
  {
    RemoveInserted(s[..k], s[k..], ' ');
    assert s[..k] + s[k..] == s;
  }

  /** Inserting a space anywhere does not change the verdict. */
  lemma IsIbanInsertSpace(s: string, k: nat)
    requires k <= |s|
    ensures IsIban(Some(s[..k] + " " + s[k..])) == IsIban(Some(s))
  {
    CompactInsertSpace(s, k);
    IsIbanDependsOnlyOnCompact(s[..k] + " " + s[k..], s);
  }

  lemma {:induction false} RemoveSameSpaces(s: string, t: string)
    requires |s| == |t|
    requires forall i :: 0 <= i < |s| ==> ToUpper(s[i]) == ToUpper(t[i])
    ensures ToUpperInvariant(Remove(s, ' ')) == ToUpperInvariant(Remove(t, ' '))
  {
    if s != [] {
      assert forall i :: 0 <= i < |s| - 1 ==> s[1..][i] == s[i + 1] && t[1..][i] == t[i + 1];
      RemoveSameSpaces(s[1..], t[1..]);
      assert s[0] == ' ' <==> t[0] == ' ';
      var hs := if s[0] == ' ' then [] else [s[0]];
      var ht := if t[0] == ' ' then [] else [t[0]];
      ToUpperInvariantAppend(hs, Remove(s[1..], ' '));
      ToUpperInvariantAppend(ht, Remove(t[1..], ' '));
    }
  }

  /** Changing the case of any letters does not change the verdict. */
  lemma IsIbanIgnoresCase(s: string, t: string)
    requires |s| == |t|
    requires forall i :: 0 <= i < |s| ==> ToUpper(s[i]) == ToUpper(t[i])
    ensures IsIban(Some(s)) == IsIban(Some(t))
  {
    RemoveSameSpaces(s, t);
    IsIbanDependsOnlyOnCompact(s, t);
  }

  /* ---------- IBANs written in groups ---------- */

  /** `string.Concat(groups)`. */
  function Concat(gs: seq<string>): string {
    if gs == [] then "" else gs[0] + Concat(gs[1..])
  }

  lemma {:induction false} ConcatAppend(a: seq<string>, b: seq<string>)
    ensures Concat(a + b) == Concat(a) + Concat(b)
  {
    if a == [] {
      assert a + b == b;
    } else {
      assert (a + b)[0] == a[0] && (a + b)[1..] == a[1..] + b;
      ConcatAppend(a[1..], b);
    }
  }

  /** An IBAN group: upper-case letters and digits. */
  predicate IbanGroup(g: string) {
    g != [] && forall i :: 0 <= i < |g| ==> IsUpper(g[i]) || IsDigit(g[i])
  }

  lemma NoSpaceInGroup(g: string)
    requires IbanGroup(g)
    ensures ' ' !in g
  {
    forall i | 0 <= i < |g| ensures g[i] != ' ' { assert IsUpper(g[i]) || IsDigit(g[i]); }
  }

  /** Removing the spaces of the groups written with single spaces between them. */
  lemma {:induction false} RemoveJoin(gs: seq<string>)
    requires forall k :: 0 <= k < |gs| ==> IbanGroup(gs[k])
    ensures Remove(Join(gs), ' ') == Concat(gs)
  {
    if gs != [] {
      var g := gs[0];
      NoSpaceInGroup(g);
      RemoveNone(g, ' ');
      RemoveJoin(gs[1..]);
      assert Concat(gs) == g + Concat(gs[1..]);
      if |gs| == 1 {
        assert gs[1..] == [] && Join(gs) == g;
        assert g + "" == g;
      } else {
        var j := Join(gs[1..]);
        assert Join(gs) == g + " " + j;
        RemoveAppend(g + " ", j, ' ');
        RemoveAppend(g, " ", ' ');
        assert " "[1..] == "";
        assert Remove(" ", ' ') == "";
        assert g + "" == g;
      }
    }
  }

  lemma {:induction false} ConcatGroups(gs: seq<string>)
    requires forall k :: 0 <= k < |gs| ==> IbanGroup(gs[k])
    ensures forall i :: 0 <= i < |Concat(gs)| ==> IsUpper(Concat(gs)[i]) || IsDigit(Concat(gs)[i])
  {
    if gs != [] {
      var g, rest := gs[0], Concat(gs[1..]);
      ConcatGroups(gs[1..]);
      var c := Concat(gs);
      forall i | 0 <= i < |c| ensures IsUpper(c[i]) || IsDigit(c[i]) {
        if i < |g| { assert c[i] == g[i]; } else { assert c[i] == rest[i - |g|]; }
      }
    }
  }

  lemma {:induction false} UpperIdentity(s: string)
    requires forall i :: 0 <= i < |s| ==> IsUpper(s[i]) || IsDigit(s[i])
    ensures ToUpperInvariant(s) == s
  {
    var u := ToUpperInvariant(s);
    forall i | 0 <= i < |s| ensures u[i] == s[i] {
      assert !IsLower(s[i]);
    }
  }

  lemma {:induction false} NumericTextCons(c: char, s: string)
    ensures NumericText([c] + s) == Transliterate(c) + NumericText(s)
  {
    assert ([c] + s)[1..] == s;
  }

  /** One character of MOD 97-10 on the alphanumeric text: a digit shifts the
      remainder by one decimal place, a letter (two digits) by two. */
  function Step(seed: int, c: char): int {
    if IsUpper(c) then (seed * 100 + (c as int - 'A' as int + 10)) % 97
    else (seed * 10 + (c as int - '0' as int)) % 97
  }

  /** The remainder of an alphanumeric text, character by character. */
  function CharFold(seed: int, s: string): (r: int)
    ensures 0 <= seed < 97 ==> 0 <= r < 97
    decreases |s|
  {
    if s == [] then seed else CharFold(Step(seed, s[0]), s[1..])
  }

  lemma FoldCons(seed: int, c: char, s: string)
    requires 0 <= seed < 97 && (IsUpper(c) || IsDigit(c))
    ensures Aggregate97(seed, NumericText([c] + s)) == Aggregate97(Step(seed, c), NumericText(s))
  {
    NumericTextCons(c, s);
    Aggregate97Append(seed, Transliterate(c), NumericText(s));
    if IsDigit(c) { DigitStep(seed, c); } else { LetterStep(seed, c); }
  }

  /** A digit adds one decimal place to the remainder. */
  lemma DigitStep(seed: int, c: char)
    requires 0 <= seed < 97 && IsDigit(c)
    ensures Aggregate97(seed, Transliterate(c)) == Step(seed, c)
  {
    var t := Transliterate(c);
    assert t[..0] == [];
    Aggregate97Digits(seed, t);
  }

  /** A letter adds the two decimal places of its number. */
  lemma LetterStep(seed: int, c: char)
    requires 0 <= seed < 97 && IsUpper(c)
    ensures Aggregate97(seed, Transliterate(c)) == Step(seed, c)
  {
    var t := Transliterate(c);
    Aggregate97Digits(seed, t);
    assert Pow10(|t|) == 100;
  }

  /** Transliterating and folding digit by digit is folding the characters directly. */
  lemma {:induction false} FoldByChars(seed: int, s: string)
    requires 0 <= seed < 97
    requires forall i :: 0 <= i < |s| ==> IsUpper(s[i]) || IsDigit(s[i])
    ensures Aggregate97(seed, NumericText(s)) == CharFold(seed, s)
    decreases |s|
  {
    if s != [] {
      assert s == [s[0]] + s[1..];
      FoldCons(seed, s[0], s[1..]);
      FoldByChars(Step(seed, s[0]), s[1..]);
    }
  }

  /** The remainder fold taken group by group. */
  function FoldGroups(seed: int, gs: seq<string>): int
    decreases |gs|
  {
    if gs == [] then seed else FoldGroups(CharFold(seed, gs[0]), gs[1..])
  }

  lemma {:induction false} Aggregate97Groups(seed: int, gs: seq<string>)
    requires 0 <= seed < 97
    requires forall k :: 0 <= k < |gs| ==> IbanGroup(gs[k])
    ensures Aggregate97(seed, NumericText(Concat(gs))) == FoldGroups(seed, gs)
    decreases |gs|
  {
    if gs != [] {
      var t := NumericText(gs[0]);
      assert Concat(gs) == gs[0] + Concat(gs[1..]);
      NumericTextAppend(gs[0], Concat(gs[1..]));
      Aggregate97Append(seed, t, NumericText(Concat(gs[1..])));
      FoldByChars(seed, gs[0]);
      var next := CharFold(seed, gs[0]);
      Aggregate97Groups(next, gs[1..]);
    }
  }

  /** Grouping is undone by `Compact`. */
  lemma CompactOfGroups(gs: seq<string>)
    requires forall k :: 0 <= k < |gs| ==> IbanGroup(gs[k])
    ensures Compact(Join(gs)) == Concat(gs)
  {
    RemoveJoin(gs);
    ConcatGroups(gs);
    UpperIdentity(Concat(gs));
  }

  /** Groups that start with a letter or digit are not white space. */
  lemma GroupsAreNotWhiteSpace(gs: seq<string>)
    requires gs != [] && IbanGroup(gs[0])
    ensures !IsNullOrWhiteSpace(Some(Join(gs)))
  {
    var j := Join(gs);
    if |gs| == 1 {
      assert j == gs[0];
    } else {
      assert j == gs[0] + (" " + Join(gs[1..]));
    }
    assert j[0] == gs[0][0];
    assert IsUpper(j[0]) || IsDigit(j[0]);
  }

  /** Moving the first group, of four characters, to the end. */
  lemma RearrangeGroups(gs: seq<string>)
    requires gs != [] && |gs[0]| == 4
    ensures Rearrange(Concat(gs)) == Concat(gs[1..] + [gs[0]])
  {
    var c := Concat(gs);
    assert c == gs[0] + Concat(gs[1..]);
    assert c[..4] == gs[0] && c[4..] == Concat(gs[1..]);
    ConcatAppend(gs[1..], [gs[0]]);
    assert Concat([gs[0]]) == gs[0] + "";
  }

  /** IsIban once the input is known to compact to `iban`. */
  lemma IsIbanOfCompact(input: string, iban: string)
    requires !IsNullOrWhiteSpace(Some(input)) && Compact(input) == iban
    requires IbanMinLength <= |iban| <= IbanMaxLength
    ensures IsIban(Some(input)) <==> Aggregate97(0, NumericText(Rearrange(iban))) == 1
  {
  }

  /** The remainder of the rearranged groups, group by group. */
  lemma MovedGroupsFold(gs: seq<string>)
    requires gs != [] && |gs[0]| == 4
    requires forall k :: 0 <= k < |gs| ==> IbanGroup(gs[k])
    ensures Aggregate97(0, NumericText(Rearrange(Concat(gs)))) == FoldGroups(0, gs[1..] + [gs[0]])
  {
    var moved := gs[1..] + [gs[0]];
    RearrangeGroups(gs);
    forall k | 0 <= k < |moved| ensures IbanGroup(moved[k]) {
      if k < |gs| - 1 { assert moved[k] == gs[k + 1]; } else { assert moved[k] == gs[0]; }
    }
    Aggregate97Groups(0, moved);
  }

  /** An IBAN written, as printed, in groups separated by single spaces. */
  lemma IsIbanOfGroups(gs: seq<string>)
    requires gs != [] && |gs[0]| == 4
    requires forall k :: 0 <= k < |gs| ==> IbanGroup(gs[k])
    requires IbanMinLength <= |Concat(gs)| <= IbanMaxLength
    ensures IsIban(Some(Join(gs))) <==> FoldGroups(0, gs[1..] + [gs[0]]) == 1
  {
    CompactOfGroups(gs);
    GroupsAreNotWhiteSpace(gs);
    IsIbanOfCompact(Join(gs), Concat(gs));
    MovedGroupsFold(gs);
  }

  /** Folding group after group through the given intermediate remainders. */
  lemma {:induction false} FoldGroupsThrough(gs: seq<string>, seeds: seq<int>)
    requires |seeds| == |gs| + 1
    requires forall k :: 0 <= k < |gs| ==> CharFold(seeds[k], gs[k]) == seeds[k + 1]
    ensures FoldGroups(seeds[0], gs) == seeds[|gs|]
    decreases |gs|
  {
    if gs != [] {
      FoldGroupsThrough(gs[1..], seeds[1..]);
    }
  }

  /** Folding a text through the given remainders, one per character. */
  lemma {:induction false} CharFoldThrough(s: string, rs: seq<int>)
    requires |rs| == |s| + 1
    requires forall i :: 0 <= i < |s| ==> Step(rs[i], s[i]) == rs[i + 1]
    ensures CharFold(rs[0], s) == rs[|s|]
    decreases |s|
  {
    if s != [] {
      CharFoldThrough(s[1..], rs[1..]);
    }
  }

  /* ---------- The library's valid test IBANs ---------- */

  /** "GB82 WEST 1234 5698 7654 32", group by group. */
  const GbGroups: seq<string> := ["GB82", "WEST", "1234", "5698", "7654", "32"]

  lemma GbGroupsAreGroups() ensures forall k :: 0 <= k < |GbGroups| ==> IbanGroup(GbGroups[k]) { }
  lemma GbGroupsLength() ensures |Concat(GbGroups)| == 22 { }

  lemma GbFold1() ensures CharFold(0, "WEST") == 36 { CharFoldThrough("WEST", [0, 32, 13, 67, 36]); }
  lemma GbFold2() ensures CharFold(36, "1234") == 6 { CharFoldThrough("1234", [36, 70, 23, 39, 6]); }
  lemma GbFold3() ensures CharFold(6, "5698") == 29 { CharFoldThrough("5698", [6, 65, 74, 70, 29]); }
  lemma GbFold4() ensures CharFold(29, "7654") == 58 { CharFoldThrough("7654", [29, 6, 66, 83, 58]); }
  lemma GbFold5() ensures CharFold(58, "32") == 12 { CharFoldThrough("32", [58, 1, 12]); }
  lemma GbFold6() ensures CharFold(12, "GB82") == 1 { CharFoldThrough("GB82", [12, 52, 70, 29, 1]); }

  lemma GbMoved() ensures GbGroups[1..] + [GbGroups[0]] == ["WEST", "1234", "5698", "7654", "32", "GB82"] { }

  lemma GbFoldMoved()
    ensures FoldGroups(0, ["WEST", "1234", "5698", "7654", "32", "GB82"]) == 1
  {
    GbFold1();
    GbFold2();
    GbFold3();
    GbFold4();
    GbFold5();
    GbFold6();
    FoldGroupsThrough(["WEST", "1234", "5698", "7654", "32", "GB82"], [0, 36, 6, 29, 58, 12, 1]);
  }

  lemma GbFold()
    ensures FoldGroups(0, GbGroups[1..] + [GbGroups[0]]) == 1
  {
    GbMoved();
    GbFoldMoved();
  }

  lemma GbIbanExample()
    ensures IsIban(Some(Join(GbGroups)))
  {
    GbGroupsAreGroups();
    GbGroupsLength();
    GbFold();
    IsIbanOfGroups(GbGroups);
  }

  /** "DE89 3704 0044 0532 0130 00", group by group. */
  const DeGroups: seq<string> := ["DE89", "3704", "0044", "0532", "0130", "00"]

  lemma DeGroupsAreGroups() ensures forall k :: 0 <= k < |DeGroups| ==> IbanGroup(DeGroups[k]) { }
  lemma DeGroupsLength() ensures |Concat(DeGroups)| == 22 { }

  lemma DeFold1() ensures CharFold(0, "3704") == 18 { CharFoldThrough("3704", [0, 3, 37, 79, 18]); }
  lemma DeFold2() ensures CharFold(18, "0044") == 12 { CharFoldThrough("0044", [18, 83, 54, 59, 12]); }
  lemma DeFold3() ensures CharFold(12, "0532") == 58 { CharFoldThrough("0532", [12, 23, 41, 25, 58]); }
  lemma DeFold4() ensures CharFold(58, "0130") == 70 { CharFoldThrough("0130", [58, 95, 78, 7, 70]); }
  lemma DeFold5() ensures CharFold(70, "00") == 16 { CharFoldThrough("00", [70, 21, 16]); }
  lemma DeFold6() ensures CharFold(16, "DE89") == 1 { CharFoldThrough("DE89", [16, 61, 3, 38, 1]); }

  lemma DeMoved() ensures DeGroups[1..] + [DeGroups[0]] == ["3704", "0044", "0532", "0130", "00", "DE89"] { }

  lemma DeFoldMoved()
    ensures FoldGroups(0, ["3704", "0044", "0532", "0130", "00", "DE89"]) == 1
  {
    DeFold1();
    DeFold2();
    DeFold3();
    DeFold4();
    DeFold5();
    DeFold6();
    FoldGroupsThrough(["3704", "0044", "0532", "0130", "00", "DE89"], [0, 18, 12, 58, 70, 16, 1]);
  }

  lemma DeFold()
    ensures FoldGroups(0, DeGroups[1..] + [DeGroups[0]]) == 1
  {
    DeMoved();
    DeFoldMoved();
  }

  lemma DeIbanExample()
    ensures IsIban(Some(Join(DeGroups)))
  {
    DeGroupsAreGroups();
    DeGroupsLength();
    DeFold();
    IsIbanOfGroups(DeGroups);
  }

  /** "FR14 2004 1010 0505 0001 3M02 606", group by group. */
  const FrGroups: seq<string> := ["FR14", "2004", "1010", "0505", "0001", "3M02", "606"]

  lemma FrGroupsAreGroups() ensures forall k :: 0 <= k < |FrGroups| ==> IbanGroup(FrGroups[k]) { }
  lemma FrGroupsLength() ensures |Concat(FrGroups)| == 27 { }

  lemma FrFold1() ensures CharFold(0, "2004") == 64 { CharFoldThrough("2004", [0, 2, 20, 6, 64]); }
  lemma FrFold2() ensures CharFold(64, "1010") == 34 { CharFoldThrough("1010", [64, 59, 8, 81, 34]); }
  lemma FrFold3() ensures CharFold(34, "0505") == 35 { CharFoldThrough("0505", [34, 49, 10, 3, 35]); }
  lemma FrFold4() ensures CharFold(35, "0001") == 25 { CharFoldThrough("0001", [35, 59, 8, 80, 25]); }
  lemma FrFold5() ensures CharFold(25, "3M02") == 17 { CharFoldThrough("3M02", [25, 59, 5, 50, 17]); }
  lemma FrFold6() ensures CharFold(17, "606") == 49 { CharFoldThrough("606", [17, 79, 14, 49]); }
  lemma FrFold7() ensures CharFold(49, "FR14") == 1 { CharFoldThrough("FR14", [49, 65, 28, 87, 1]); }

  lemma FrMoved() ensures FrGroups[1..] + [FrGroups[0]] == ["2004", "1010", "0505", "0001", "3M02", "606", "FR14"] { }

  lemma FrFoldMoved()
    ensures FoldGroups(0, ["2004", "1010", "0505", "0001", "3M02", "606", "FR14"]) == 1
  {
    FrFold1();
    FrFold2();
    FrFold3();
    FrFold4();
    FrFold5();
    FrFold6();
    FrFold7();
    FoldGroupsThrough(["2004", "1010", "0505", "0001", "3M02", "606", "FR14"], [0, 64, 34, 35, 25, 17, 49, 1]);
  }

  lemma FrFold()
    ensures FoldGroups(0, FrGroups[1..] + [FrGroups[0]]) == 1
  {
    FrMoved();
    FrFoldMoved();
  }

  lemma FrIbanExample()
    ensures IsIban(Some(Join(FrGroups)))
  {
    FrGroupsAreGroups();
    FrGroupsLength();
    FrFold();
    IsIbanOfGroups(FrGroups);
  }

  /** "GB82 WEST 1234 5698 7654": the UK example with its last group dropped, of valid
      length but with the wrong remainder. */
  const GbShortGroups: seq<string> := ["GB82", "WEST", "1234", "5698", "7654"]

  lemma GbShortGroupsAreGroups() ensures forall k :: 0 <= k < |GbShortGroups| ==> IbanGroup(GbShortGroups[k]) { }
  lemma GbShortGroupsLength() ensures |Concat(GbShortGroups)| == 20 { }

  lemma GbShortFold5() ensures CharFold(58, "GB82") == 79 { CharFoldThrough("GB82", [58, 93, 96, 95, 79]); }

  lemma GbShortMoved() ensures GbShortGroups[1..] + [GbShortGroups[0]] == ["WEST", "1234", "5698", "7654", "GB82"] { }

  lemma GbShortFoldMoved()
    ensures FoldGroups(0, ["WEST", "1234", "5698", "7654", "GB82"]) == 79
  {
    GbFold1();
    GbFold2();
    GbFold3();
    GbFold4();
    GbShortFold5();
    FoldGroupsThrough(["WEST", "1234", "5698", "7654", "GB82"], [0, 36, 6, 29, 58, 79]);
  }

  lemma GbShortFold()
    ensures FoldGroups(0, GbShortGroups[1..] + [GbShortGroups[0]]) == 79
  {
    GbShortMoved();
    GbShortFoldMoved();
  }

  lemma GbShortIbanExample()
    ensures !IsIban(Some(Join(GbShortGroups)))
  {
    GbShortGroupsAreGroups();
    GbShortGroupsLength();
    GbShortFold();
    IsIbanOfGroups(GbShortGroups);
  }

  /** Null, empty, and too few characters once spaces are removed. */
  lemma BlankOrShortIbanExamples()
    ensures !IsIban(None) && !IsIban(Some(""))
    ensures !IsIban(Some("INVALIDIBAN"))
  {
    assert |Compact("INVALIDIBAN")| <= 11;
  }

  /** Forty-two characters without a space: too long. */
  const LongIban: string := "GB82WEST1234569876543212345678901234567890"

  lemma LongIbanHasNoSpace()
    ensures ' ' !in LongIban
  {
    assert forall i :: 0 <= i < |LongIban| ==> LongIban[i] != ' ';
  }

  /** Without spaces, more than 34 characters is too long. */
  lemma TooLongIban(s: string)
    requires ' ' !in s && |s| > IbanMaxLength
    ensures !IsIban(Some(s))
  {
    RemoveNone(s, ' ');
  }

  lemma LongIbanExample()
    ensures !IsIban(Some(LongIban))
  {
    LongIbanHasNoSpace();
    TooLongIban(LongIban);
  }

  /* ---------- IsBic and IsCurrency ---------- */

  /** `[A-Z]{4}[A-Z]{2}[A-Z0-9]{2}([A-Z0-9]{3})?` matched in full, ignoring case. */
  predicate BicShape(t: string) {
    && (|t| == 8 || |t| == 11)
    && (forall i :: 0 <= i < 6 ==> IsLetter(t[i]))
    && (forall i :: 6 <= i < |t| ==> IsLetterOrDigit(t[i]))
  }

  /** `FinancialValidators.IsBic`: `^...$`, where `$` also matches before one final '\n'. */
  function IsBic(input: Option<string>): (r: bool)
    ensures IsNullOrWhiteSpace(input) ==> !r
    ensures r <==> (input.Some? && (BicShape(input.value) ||
      (input.value != [] && input.value[|input.value| - 1] == '\n' && BicShape(input.value[..|input.value| - 1]))))
    ensures r ==> |input.value| in {8, 9, 11, 12}
    ensures r ==> forall i :: 0 <= i < 6 ==> IsLetter(input.value[i])
  {
    !IsNullOrWhiteSpace(input)
    && var s := input.value;
    (BicShape(s) || (s != [] && s[|s| - 1] == '\n' && BicShape(s[..|s| - 1])))
  }

  /** Two texts of the same length that agree up to ASCII case. */
  predicate SameUpToCase(s: string, t: string) {
    |s| == |t| && forall i :: 0 <= i < |s| ==> ToUpper(s[i]) == ToUpper(t[i])
  }

  /** Case does not change whether a character is a letter, a digit or '\n'. */
  lemma UpperKeepsClass(c: char, d: char)
    requires ToUpper(c) == ToUpper(d)
    ensures IsLetter(c) <==> IsLetter(d)
    ensures IsLetterOrDigit(c) <==> IsLetterOrDigit(d)
    ensures c == '\n' <==> d == '\n'
  {
  }

  lemma BicShapeIgnoresCase(s: string, t: string)
    requires SameUpToCase(s, t)
    ensures BicShape(s) <==> BicShape(t)
  {
    forall i | 0 <= i < |s| ensures (IsLetter(s[i]) <==> IsLetter(t[i])) && (IsLetterOrDigit(s[i]) <==> IsLetterOrDigit(t[i])) {
      UpperKeepsClass(s[i], t[i]);
    }
  }

  /** BICs match whatever the case of the input's letters. */
  lemma IsBicIgnoresCase(s: string, t: string)
    requires SameUpToCase(s, t)
    ensures IsBic(Some(s)) == IsBic(Some(t))
  {
    BicShapeIgnoresCase(s, t);
    if s != [] {
      var n := |s| - 1;
      UpperKeepsClass(s[n], t[n]);
      assert SameUpToCase(s[..n], t[..n]) by {
        forall i | 0 <= i < n ensures ToUpper(s[..n][i]) == ToUpper(t[..n][i]) {
          assert s[..n][i] == s[i] && t[..n][i] == t[i];
        }
      }
      BicShapeIgnoresCase(s[..n], t[..n]);
    }
  }

  /** A text and its upper-cased form are both BICs or neither. */
  lemma IsBicOfUpper(s: string)
    ensures IsBic(Some(s)) == IsBic(Some(ToUpperInvariant(s)))
  {
    var u := ToUpperInvariant(s);
    forall i | 0 <= i < |s| ensures ToUpper(s[i]) == ToUpper(u[i]) {
      assert u[i] == ToUpper(s[i]);
    }
    IsBicIgnoresCase(s, u);
  }

  /** `FinancialValidators.IsCurrency` over the ISO 4217 code set `codes`. */
  function IsCurrency(codes: set<string>, input: Option<string>): (r: bool)
    ensures IsNullOrWhiteSpace(input) ==> !r
    ensures r ==> ToUpperInvariant(input.value) in codes
    ensures !IsNullOrWhiteSpace(input) && ToUpperInvariant(input.value) in codes ==> r
  {
    !IsNullOrWhiteSpace(input) && ToUpperInvariant(input.value) in codes
  }

  lemma AllWhiteSpaceUpper(s: string)
    ensures Enumerable.All(s, IsWhiteSpace) <==> Enumerable.All(ToUpperInvariant(s), IsWhiteSpace)
  {
    var u := ToUpperInvariant(s);
    assert forall i :: 0 <= i < |s| ==> (IsWhiteSpace(s[i]) <==> IsWhiteSpace(u[i]));
  }

  /** Currency codes match whatever the case of the input's letters. */
  lemma IsCurrencyIgnoresCase(codes: set<string>, s: string, t: string)
    requires ToUpperInvariant(s) == ToUpperInvariant(t)
    ensures IsCurrency(codes, Some(s)) == IsCurrency(codes, Some(t))
  {
    AllWhiteSpaceUpper(s);
    AllWhiteSpaceUpper(t);
  }

  /* ---------- The library's BIC and currency examples ---------- */

  lemma DeutscheBankBic() ensures IsBic(Some("DEUTDEFF")) { assert BicShape("DEUTDEFF"); }
  lemma NedbankBic() ensures IsBic(Some("NEDSZAJJXXX")) { assert BicShape("NEDSZAJJXXX"); }
  lemma BankOfAmericaBic() ensures IsBic(Some("BOFAUS3N")) { assert BicShape("BOFAUS3N"); }

  lemma NotBicExamples()
    ensures !IsBic(Some("INVALIDBIC")) && !IsBic(Some("DEUTDE")) && !IsBic(Some("DEUTDEFF1234"))
    ensures !IsBic(Some("")) && !IsBic(None)
  {
    assert "DEUTDEFF1234"[11] != '\n';
  }

  /** With the library's code set, which holds USD, EUR and JPY and neither XXX nor
      USDOLLAR. */
  lemma CurrencyExamples(codes: set<string>)
    requires "USD" in codes && "EUR" in codes && "JPY" in codes
    requires "XXX" !in codes && "USDOLLAR" !in codes
    ensures IsCurrency(codes, Some("USD")) && IsCurrency(codes, Some("eur")) && IsCurrency(codes, Some("JPY"))
    ensures !IsCurrency(codes, Some("XXX")) && !IsCurrency(codes, Some("usdollar"))
    ensures !IsCurrency(codes, Some("")) && !IsCurrency(codes, None)
  {
    UpperUsd();
    UpperEur();
    UpperJpy();
    UpperXxx();
    UpperUsdollar();
  }

  lemma UpperUsd() ensures ToUpperInvariant("USD") == "USD" { }
  lemma UpperEur() ensures ToUpperInvariant("eur") == "EUR" { }
  lemma UpperJpy() ensures ToUpperInvariant("JPY") == "JPY" { }
  lemma UpperXxx() ensures ToUpperInvariant("XXX") == "XXX" { }
  lemma UpperUsdollar() ensures ToUpperInvariant("usdollar") == "USDOLLAR" { }
}
