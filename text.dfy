/** Sequence helpers shared by the log views and the reply engines. */
module Seqs {

  function Min(a: int, b: int): int { if a < b then a else b }

  /** `s[::-1]`, and the order in which Python's `reversed(s)` yields items. */
  function Reversed<T>(s: seq<T>): (r: seq<T>)
    ensures |r| == |s|
    ensures forall k :: 0 <= k < |s| ==> r[k] == s[|s| - 1 - k]
  {
    if s == [] then [] else Reversed(s[1..]) + [s[0]]
  }

  /** Python's `s[-n:]`: the last `n` items, or all of them when there are fewer. */
  function Tail<T>(s: seq<T>, n: nat): (r: seq<T>)
    ensures |r| == Min(n, |s|)
    ensures s == s[..|s| - |r|] + r
  {
    s[|s| - Min(n, |s|)..]
  }
}

/** The parts of Python's `str` that the dashboards use on user names and texts. */
module Text {

  /** The characters for which Python's `str.isspace()` holds, and hence the ones `str.strip()` removes. */
  predicate IsSpace(c: char) {
    || c == ' '
    || ('\t' <= c <= '\r')
    || ('\U{1C}' <= c <= '\U{1F}')
    || c == '\U{85}' || c == '\U{A0}' || c == '\U{1680}'
    || ('\U{2000}' <= c <= '\U{200A}')
    || c == '\U{2028}' || c == '\U{2029}' || c == '\U{202F}' || c == '\U{205F}' || c == '\U{3000}'
  }

  predicate IsUpper(c: char) { 'A' <= c <= 'Z' }

  function LowerChar(c: char): (r: char)
    ensures !IsUpper(r)
    ensures !IsUpper(c) ==> r == c
    ensures IsSpace(r) <==> IsSpace(c)
  {
    if IsUpper(c) then (c as int + 32) as char else c
  }

  /** Python's `str.lower()` on the ASCII letters: each capital becomes its small letter, every other character is kept. */
  function Lower(s: string): (r: string)
    ensures |r| == |s| && IsLower(r)
    ensures forall i :: 0 <= i < |s| && !IsUpper(s[i]) ==> r[i] == s[i]
    ensures forall i :: 0 <= i < |s| && IsUpper(s[i]) ==> r[i] as int == s[i] as int + 32
  {
    seq(|s|, i requires 0 <= i < |s| => LowerChar(s[i]))
  }

  predicate IsLower(s: string) {
    forall i :: 0 <= i < |s| ==> !IsUpper(s[i])
  }

  /** Number of whitespace characters at the front of `s`. */
  function LeadingSpaces(s: string): (n: nat)
    ensures n <= |s|
    ensures forall i :: 0 <= i < n ==> IsSpace(s[i])
    ensures n < |s| ==> !IsSpace(s[n])
  {
    if s != [] && IsSpace(s[0]) then 1 + LeadingSpaces(s[1..]) else 0
  }

  /**
   * `r` is `s` with a run of whitespace removed at each end: it stands in `s` at offset `i`,
   * and everything before and after it is whitespace.
   */
  predicate StrippedAt(s: string, r: string, i: int) {
    && 0 <= i && i + |r| <= |s| && s[i..i + |r|] == r
    && (forall j :: 0 <= j < i ==> IsSpace(s[j]))
    && (forall j :: i + |r| <= j < |s| ==> IsSpace(s[j]))
  }

  /**
   * Python's `str.strip()` with no argument: whitespace is dropped from either end until
   * neither end is whitespace, so a non-empty result starts and ends with another character.
   */
  function Strip(s: string): (r: string)
    ensures |r| <= |s|
    ensures r != [] ==> !IsSpace(r[0]) && !IsSpace(r[|r| - 1])
    decreases |s|
  {
    if s == [] then s
    else if IsSpace(s[0]) then Strip(s[1..])
    else if IsSpace(s[|s| - 1]) then Strip(s[..|s| - 1])
    else s
  }

  /**
   * `Strip(s)` stands in `s` right after the leading whitespace with only whitespace around it,
   * it is empty exactly when `s` is all whitespace, and it has no capitals when `s` has none.
   */
  lemma StripSpec(s: string)
    ensures StrippedAt(s, Strip(s), LeadingSpaces(s))
    ensures Strip(s) == [] <==> forall i :: 0 <= i < |s| ==> IsSpace(s[i])
    ensures IsLower(s) ==> IsLower(Strip(s))
  {
    StripInfix(s);
    var r, a := Strip(s), LeadingSpaces(s);
    if r != [] {
      assert r[0] == s[a];
    }
    assert IsLower(s) ==> IsLower(r) by {
      IsLowerSlice(s, a, a + |r|);
    }
  }

  /** The lower-case part of `StripSpec` on its own. */
  lemma StripKeepsLower(s: string)
    requires IsLower(s)
    ensures IsLower(Strip(s))
  {
    StripSpec(s);
  }

  /** The induction behind `StripSpec`: each blank `Strip` drops lies outside the part it keeps. */
  lemma {:induction false} StripInfix(s: string)
    ensures StrippedAt(s, Strip(s), LeadingSpaces(s))
    decreases |s|
  {
    if s != [] {
      if IsSpace(s[0]) {
        StripInfix(s[1..]);
        DropFront(s, Strip(s), LeadingSpaces(s[1..]));
      } else if IsSpace(s[|s| - 1]) {
        StripInfix(s[..|s| - 1]);
        DropBack(s, Strip(s), LeadingSpaces(s[..|s| - 1]));
      }
    }
  }

  /** Putting a blank back in front moves the kept part one place on. */
  lemma DropFront(s: string, r: string, i: int)
    requires s != [] && IsSpace(s[0]) && StrippedAt(s[1..], r, i)
    ensures StrippedAt(s, r, i + 1)
  {
    assert s[i + 1..i + 1 + |r|] == s[1..][i..i + |r|];
    forall j | 0 <= j < i + 1
      ensures IsSpace(s[j])
    {
      if j > 0 {
        assert s[j] == s[1..][j - 1];
      }
    }
    forall j | i + 1 + |r| <= j < |s|
      ensures IsSpace(s[j])
    {
      assert s[j] == s[1..][j - 1];
    }
  }

  /** Putting a blank back at the end leaves the kept part where it was. */
  lemma DropBack(s: string, r: string, i: int)
    requires s != [] && IsSpace(s[|s| - 1]) && StrippedAt(s[..|s| - 1], r, i)
    ensures StrippedAt(s, r, i)
  {
    assert s[i..i + |r|] == s[..|s| - 1][i..i + |r|];
    forall j | 0 <= j < i
      ensures IsSpace(s[j])
    {
      assert s[j] == s[..|s| - 1][j];
    }
    forall j | i + |r| <= j < |s|
      ensures IsSpace(s[j])
    {
      if j < |s| - 1 {
        assert s[j] == s[..|s| - 1][j];
      }
    }
  }

  /** A slice of a string without capitals has none either. */
  lemma IsLowerSlice(s: string, a: int, b: int)
    requires 0 <= a <= b <= |s|
    ensures IsLower(s) ==> IsLower(s[a..b])
  {
    if IsLower(s) {
      forall i | 0 <= i < b - a
        ensures !IsUpper(s[a..b][i])
      {
        assert s[a..b][i] == s[a + i];
      }
    }
  }

  /** Python's `needle in haystack` on two strings. */
  predicate Contains(haystack: string, needle: string)
    decreases |haystack|
  {
    || (|needle| <= |haystack| && haystack[..|needle|] == needle)
    || (haystack != [] && Contains(haystack[1..], needle))
  }

  /** Lower-casing works character by character, so it commutes with dropping a prefix. */
  lemma LowerSuffix(s: string, a: int)
    requires 0 <= a <= |s|
    ensures Lower(s)[a..] == Lower(s[a..])
  {
    assert forall i :: 0 <= i < |s| - a ==> Lower(s)[a..][i] == LowerChar(s[a + i]) == Lower(s[a..])[i];
  }

  /** Lower-casing commutes with taking a prefix. */
  lemma LowerPrefix(s: string, n: int)
    requires 0 <= n <= |s|
    ensures Lower(s)[..n] == Lower(s[..n])
  {
    assert forall i :: 0 <= i < n ==> Lower(s)[..n][i] == LowerChar(s[i]) == Lower(s[..n])[i];
  }

  lemma LowerKeepsLower(s: string)
    requires IsLower(s)
    ensures Lower(s) == s
  {
  }

  /** Stripping twice is stripping once. */
  lemma StripIdempotent(s: string)
    ensures Strip(Strip(s)) == Strip(s)
  {
  }

  /** `needle` stands in `haystack` at offset `i`. */
  predicate OccursAt(haystack: string, needle: string, i: int) {
    0 <= i && i + |needle| <= |haystack| && haystack[i..i + |needle|] == needle
  }

  /** The `Contains` recursion finds exactly the occurrences at some offset. */
  lemma {:induction false} ContainsAt(haystack: string, needle: string)
    ensures Contains(haystack, needle) <==> exists i :: OccursAt(haystack, needle, i)
  {
    if |needle| <= |haystack| && haystack[..|needle|] == needle {
      assert OccursAt(haystack, needle, 0);
    }
    if haystack != [] {
      var tail := haystack[1..];
      ContainsAt(tail, needle);
      if exists i :: OccursAt(tail, needle, i) {
        var i :| OccursAt(tail, needle, i);
        assert haystack[i + 1..i + 1 + |needle|] == needle;
        assert OccursAt(haystack, needle, i + 1);
      }
      if exists i :: OccursAt(haystack, needle, i) {
        var i :| OccursAt(haystack, needle, i);
        if i > 0 {
          assert tail[i - 1..i - 1 + |needle|] == needle;
          assert OccursAt(tail, needle, i - 1);
        }
      }
    } else {
      if exists i :: OccursAt(haystack, needle, i) {
        var i :| OccursAt(haystack, needle, i);
        assert |needle| == 0;
      }
    }
  }
}
