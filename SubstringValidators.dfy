/**
 * `SubstringValidators`: containment of any or all of a list of substrings
 * (ordinal), and prefix or suffix match against any of a list (ignoring the case
 * of ASCII letters).  All four are false for a null or empty input.
 */
module SubstringValidators {
  import opened Wrappers
  import opened Chars
  import opened Strings
  import Enumerable

  /** A non-null, non-empty string. */
  predicate Present(input: Option<string>) {
    !IsNullOrEmpty(input)
  }

  function ContainsAny(input: Option<string>, substrings: seq<string>): (r: bool)
    ensures r <==> (Present(input) &&
      exists k :: 0 <= k < |substrings| && IsSubstring(substrings[k], input.value))
  {
    Present(input) &&
    var s := input.value;
    Enumerable.Any(substrings, sub => Contains(s, sub))
  }

  function ContainsAll(input: Option<string>, substrings: seq<string>): (r: bool)
    ensures r <==> (Present(input) &&
      forall k :: 0 <= k < |substrings| ==> IsSubstring(substrings[k], input.value))
  {
    Present(input) &&
    var s := input.value;
    Enumerable.All(substrings, sub => Contains(s, sub))
  }

  /** `s` and `p` agree, up to ASCII case, on the first `|p|` characters of `s`. */
  predicate PrefixIgnoringCase(s: string, p: string) {
    |p| <= |s| && forall i :: 0 <= i < |p| ==> ToUpper(s[i]) == ToUpper(p[i])
  }

  /** `s` and `q` agree, up to ASCII case, on the last `|q|` characters of `s`. */
  predicate SuffixIgnoringCase(s: string, q: string) {
    |q| <= |s| && forall i :: 0 <= i < |q| ==> ToUpper(s[|s| - |q| + i]) == ToUpper(q[i])
  }

  function StartsWithAny(input: Option<string>, prefixes: seq<string>): (r: bool)
    ensures r <==> (Present(input) &&
      exists k :: 0 <= k < |prefixes| && PrefixIgnoringCase(input.value, prefixes[k]))
  {
    Present(input) &&
    var s := input.value;
    assert forall p :: StartsWithIgnoreCase(s, p) <==> PrefixIgnoringCase(s, p) by {
      forall p ensures StartsWithIgnoreCase(s, p) <==> PrefixIgnoringCase(s, p) {
        if |p| <= |s| {
          assert forall i :: 0 <= i < |p| ==> ToUpperInvariant(s[..|p|])[i] == ToUpper(s[i]);
        }
      }
    }
    Enumerable.Any(prefixes, p => StartsWithIgnoreCase(s, p))
  }

  function EndsWithAny(input: Option<string>, suffixes: seq<string>): (r: bool)
    ensures r <==> (Present(input) &&
      exists k :: 0 <= k < |suffixes| && SuffixIgnoringCase(input.value, suffixes[k]))
  {
    Present(input) &&
    var s := input.value;
    assert forall q :: EndsWithIgnoreCase(s, q) <==> SuffixIgnoringCase(s, q) by {
      forall q ensures EndsWithIgnoreCase(s, q) <==> SuffixIgnoringCase(s, q) {
        if |q| <= |s| {
          var t := s[|s| - |q|..];
          assert forall i :: 0 <= i < |q| ==> t[i] == s[|s| - |q| + i];
        }
      }
    }
    Enumerable.Any(suffixes, q => EndsWithIgnoreCase(s, q))
  }

  /* ---------- Properties ---------- */

  /** Null and "" fail every check, whatever the candidates. */
  lemma NullOrEmptyFailsEverything(input: Option<string>, cs: seq<string>)
    requires IsNullOrEmpty(input)
    ensures !ContainsAny(input, cs) && !ContainsAll(input, cs)
    ensures !StartsWithAny(input, cs) && !EndsWithAny(input, cs)
  {
  }

  /** No candidates: "any" fails, "all" holds for every present string. */
  lemma NoCandidates(s: string)
    requires s != []
    ensures !ContainsAny(Some(s), []) && ContainsAll(Some(s), [])
    ensures !StartsWithAny(Some(s), []) && !EndsWithAny(Some(s), [])
  {
  }

  /** With at least one candidate, containing all of them means containing one. */
  lemma ContainsAllImpliesContainsAny(input: Option<string>, cs: seq<string>)
    requires cs != [] && ContainsAll(input, cs)
    ensures ContainsAny(input, cs)
  {
    assert IsSubstring(cs[0], input.value);
  }

  /** The empty candidate occurs in every present string. */
  lemma EmptyCandidateMatches(s: string, cs: seq<string>)
    requires s != [] && "" in cs
    ensures ContainsAny(Some(s), cs)
    ensures StartsWithAny(Some(s), cs) && EndsWithAny(Some(s), cs)
  {
    var k :| 0 <= k < |cs| && cs[k] == "";
    assert OccursAt(s, cs[k], 0);
    assert PrefixIgnoringCase(s, cs[k]) && SuffixIgnoringCase(s, cs[k]);
  }

  /** A prefix matches, in whatever case it is written. */
  lemma StartsWithOwnPrefix(p: string, rest: string, q: string)
    requires p + rest != []
    requires ToUpperInvariant(q) == ToUpperInvariant(p)
    ensures StartsWithAny(Some(p + rest), [q])
  {
    var s := p + rest;
    forall i | 0 <= i < |q| ensures ToUpper(s[i]) == ToUpper(q[i]) {
      assert s[i] == p[i];
      assert ToUpperInvariant(q)[i] == ToUpperInvariant(p)[i];
    }
    assert PrefixIgnoringCase(s, [q][0]);
  }

  /** A suffix matches, in whatever case it is written. */
  lemma EndsWithOwnSuffix(rest: string, p: string, q: string)
    requires rest + p != []
    requires ToUpperInvariant(q) == ToUpperInvariant(p)
    ensures EndsWithAny(Some(rest + p), [q])
  {
    var s := rest + p;
    forall i | 0 <= i < |q| ensures ToUpper(s[|s| - |q| + i]) == ToUpper(q[i]) {
      assert s[|s| - |q| + i] == p[i];
      assert ToUpperInvariant(q)[i] == ToUpperInvariant(p)[i];
    }
    assert SuffixIgnoringCase(s, [q][0]);
  }

  /** A candidate whose first character does not occur in `s` is not a substring of it. */
  lemma NotSubstringByFirstChar(sub: string, s: string)
    requires sub != [] && sub[0] !in s
    ensures !IsSubstring(sub, s)
  {
    forall k ensures !OccursAt(s, sub, k) {
      if 0 <= k && k + |sub| <= |s| {
        assert s[k..k + |sub|][0] == s[k] != sub[0];
      }
    }
  }

  /* ---------- The library's own examples ---------- */

  lemma ContainsAnyExample()
    ensures ContainsAny(Some("hello world"), ["world", "foo"])
  {
    assert OccursAt("hello world", "world", 6);
  }

  lemma NotContainsAnyExample()
    ensures !ContainsAny(Some("hello"), ["foo", "bar"])
  {
    NotSubstringByFirstChar("foo", "hello");
    NotSubstringByFirstChar("bar", "hello");
  }

  lemma ContainsAllExample()
    ensures ContainsAll(Some("hello world"), ["hello", "world"])
  {
    assert OccursAt("hello world", "hello", 0);
    assert OccursAt("hello world", "world", 6);
  }

  lemma NotContainsAllExample()
    ensures !ContainsAll(Some("hello world"), ["hello", "foo"])
  {
    NotSubstringByFirstChar("foo", "hello world");
  }

  lemma StartsWithExample()
    ensures StartsWithAny(Some("hello world"), ["hello", "foo"])
  {
    assert PrefixIgnoringCase("hello world", "hello");
  }

  lemma NotStartsWithExample()
    ensures !StartsWithAny(Some("world hello"), ["hello", "foo"])
  {
    assert ToUpper("world hello"[0]) != ToUpper("hello"[0]);
    assert ToUpper("world hello"[0]) != ToUpper("foo"[0]);
  }

  lemma EndsWithExample()
    ensures EndsWithAny(Some("hello world"), ["world", "foo"])
  {
    assert SuffixIgnoringCase("hello world", "world");
  }

  lemma NotEndsWithExample()
    ensures !EndsWithAny(Some("hello world"), ["hello", "foo"])
  {
    assert ToUpper("hello world"[10]) != ToUpper("hello"[4]);
    assert ToUpper("hello world"[10]) != ToUpper("foo"[2]);
  }
}
