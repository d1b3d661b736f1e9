/**
 * The members of .NET's `System.String` that the library calls.  A C# `string?`
 * is an `Option<string>`; comparisons that ignore case fold ASCII letters only.
 */
module Strings {
  import opened Wrappers
  import opened Chars
  import Enumerable

  /** `string.IsNullOrEmpty`. */
  predicate IsNullOrEmpty(s: Option<string>) {
    s.None? || s.value == []
  }

  /** `string.IsNullOrWhiteSpace`: absent, or every character is white space. */
  predicate IsNullOrWhiteSpace(s: Option<string>) {
    s.None? || Enumerable.All(s.value, IsWhiteSpace)
  }

  /** `ToUpperInvariant`, character by character. */
  function ToUpperInvariant(s: string): (r: string)
    ensures |r| == |s|
    ensures forall i :: 0 <= i < |s| ==> r[i] == ToUpper(s[i])
  {
    seq(|s|, i requires 0 <= i < |s| => ToUpper(s[i]))
  }

  /** `ToLowerInvariant`, character by character. */
  function ToLowerInvariant(s: string): (r: string)
    ensures |r| == |s|
    ensures forall i :: 0 <= i < |s| ==> r[i] == ToLower(s[i])
  {
    seq(|s|, i requires 0 <= i < |s| => ToLower(s[i]))
  }

  lemma {:induction false} ToUpperInvariantAppend(a: string, b: string)
    ensures ToUpperInvariant(a + b) == ToUpperInvariant(a) + ToUpperInvariant(b)
  {
    var l, r := ToUpperInvariant(a + b), ToUpperInvariant(a) + ToUpperInvariant(b);
    assert |l| == |r|;
    forall i | 0 <= i < |l| ensures l[i] == r[i] {
      if i < |a| { assert (a + b)[i] == a[i]; } else { assert (a + b)[i] == b[i - |a|]; }
    }
  }

  lemma {:induction false} ToLowerInvariantAppend(a: string, b: string)
    ensures ToLowerInvariant(a + b) == ToLowerInvariant(a) + ToLowerInvariant(b)
  {
    var l, r := ToLowerInvariant(a + b), ToLowerInvariant(a) + ToLowerInvariant(b);
    assert |l| == |r|;
    forall i | 0 <= i < |l| ensures l[i] == r[i] {
      if i < |a| { assert (a + b)[i] == a[i]; } else { assert (a + b)[i] == b[i - |a|]; }
    }
  }

  /** `sub` occurs in `s` starting at index `k`. */
  predicate OccursAt(s: string, sub: string, k: int) {
    0 <= k && k + |sub| <= |s| && s[k..k + |sub|] == sub
  }

  /** `sub` occurs somewhere in `s`. */
  ghost predicate IsSubstring(sub: string, s: string) {
    exists k :: OccursAt(s, sub, k)
  }

  /** `s.Contains(sub)`: ordinal substring search. */
  function Contains(s: string, sub: string): (r: bool)
    ensures r <==> IsSubstring(sub, s)
    decreases |s|
  {
    if |sub| <= |s| && s[..|sub|] == sub then
      assert OccursAt(s, sub, 0);
      true
    else if s == [] then
      assert forall k :: !OccursAt(s, sub, k);
      false
    else
      var rest := Contains(s[1..], sub);
      assert forall k :: OccursAt(s[1..], sub, k) ==> OccursAt(s, sub, k + 1);
      assert forall k :: 1 <= k && OccursAt(s, sub, k) ==> OccursAt(s[1..], sub, k - 1);
      rest
  }

  /** `s.StartsWith(p, ignoreCase: true, ...)` with an ASCII case fold. */
  predicate StartsWithIgnoreCase(s: string, p: string) {
    |p| <= |s| && ToUpperInvariant(s[..|p|]) == ToUpperInvariant(p)
  }

  /** `s.EndsWith(q, ignoreCase: true, ...)` with an ASCII case fold. */
  predicate EndsWithIgnoreCase(s: string, q: string) {
    |q| <= |s| && ToUpperInvariant(s[|s| - |q|..]) == ToUpperInvariant(q)
  }

  /** `s.Replace(c.ToString(), string.Empty)`: every occurrence of `c` removed. */
  function Remove(s: string, c: char): (r: string)
    ensures c !in r
    ensures |r| <= |s|
  {
    if s == [] then []
    else (if s[0] == c then [] else [s[0]]) + Remove(s[1..], c)
  }

  lemma {:induction false} RemoveAppend(a: string, b: string, c: char)
    ensures Remove(a + b, c) == Remove(a, c) + Remove(b, c)
  {
    if a == [] {
      assert a + b == b;
    } else {
      assert (a + b)[0] == a[0];
      assert (a + b)[1..] == a[1..] + b;
      RemoveAppend(a[1..], b, c);
      var h := if a[0] == c then [] else [a[0]];
      assert Remove(a + b, c) == h + (Remove(a[1..], c) + Remove(b, c));
      assert h + (Remove(a[1..], c) + Remove(b, c)) == (h + Remove(a[1..], c)) + Remove(b, c);
    }
  }

  /** The removed character may be inserted anywhere first. */
  lemma RemoveInserted(a: string, b: string, c: char)
    ensures Remove(a + [c] + b, c) == Remove(a + b, c)
  {
    assert Remove([c], c) == [] by { assert [c][1..] == []; }
    assert a + [c] + b == a + ([c] + b);
    RemoveAppend(a, [c] + b, c);
    RemoveAppend([c], b, c);
    RemoveAppend(a, b, c);
  }

  /** Removing a character that does not occur changes nothing. */
  lemma {:induction false} RemoveNone(s: string, c: char)
    requires c !in s
    ensures Remove(s, c) == s
  {
    if s != [] {
      assert s[0] != c;
      RemoveNone(s[1..], c);
    }
  }

  /** `s.TrimEnd()`: trailing white space removed. */
  function TrimEnd(s: string): (r: string)
    ensures r <= s
    ensures r == [] || !IsWhiteSpace(r[|r| - 1])
    ensures forall i :: |r| <= i < |s| ==> IsWhiteSpace(s[i])
  {
    if s != [] && IsWhiteSpace(s[|s| - 1]) then TrimEnd(s[..|s| - 1]) else s
  }

  /** `string.Join(" ", ws)`. */
  function Join(ws: seq<string>): string
  {
    if ws == [] then ""
    else if |ws| == 1 then ws[0]
    else ws[0] + " " + Join(ws[1..])
  }

  /** Length of the run of non-separators that `s` starts with. */
  function WordLength(s: string, separators: seq<char>): (n: nat)
    ensures n <= |s|
    ensures forall i :: 0 <= i < n ==> s[i] !in separators
    ensures n < |s| ==> s[n] in separators
  {
    if s == [] || s[0] in separators then 0 else 1 + WordLength(s[1..], separators)
  }

  /** A non-empty piece without separators: what a split can produce. */
  predicate IsWord(w: string, separators: seq<char>) {
    w != [] && forall i :: 0 <= i < |w| ==> w[i] !in separators
  }

  /** `s.Split(separators, StringSplitOptions.RemoveEmptyEntries)`. */
  function Split(s: string, separators: seq<char>): (ws: seq<string>)
    ensures forall k :: 0 <= k < |ws| ==> IsWord(ws[k], separators)
    decreases |s|
  {
    if s == [] then []
    else if s[0] in separators then Split(s[1..], separators)
    else
      var n := WordLength(s, separators);
      [s[..n]] + Split(s[n..], separators)
  }

  lemma {:induction false} WordLengthOfWord(w: string, t: string, separators: seq<char>)
    requires forall i :: 0 <= i < |w| ==> w[i] !in separators
    requires t == [] || t[0] in separators
    ensures WordLength(w + t, separators) == |w|
  {
    if w != [] {
      assert (w + t)[1..] == w[1..] + t;
      WordLengthOfWord(w[1..], t, separators);
    }
  }

  /** Splitting undoes joining with single spaces, when the space is a separator. */
  lemma {:induction false} SplitJoin(ws: seq<string>, separators: seq<char>)
    requires ' ' in separators
    requires forall k :: 0 <= k < |ws| ==> IsWord(ws[k], separators)
    ensures Split(Join(ws), separators) == ws
  {
    if ws == [] {
    } else if |ws| == 1 {
      var w := ws[0];
      WordLengthOfWord(w, [], separators);
      assert w + [] == w;
      assert w[|w|..] == [];
    } else {
      var w, rest := ws[0], Join(ws[1..]);
      var s := w + " " + rest;
      assert s == w + (" " + rest);
      WordLengthOfWord(w, " " + rest, separators);
      assert s[..|w|] == w;
      assert s[|w|..] == " " + rest;
      assert (" " + rest)[1..] == rest;
      SplitJoin(ws[1..], separators);
    }
  }
}
