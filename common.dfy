/**
 * Shared vocabulary: an Option type and the handful of .NET string operations the
 * game scripts rely on (Contains, StartsWith, IndexOf, Replace, ToLower, ToUpper on
 * a character, int.ToString), restricted to ordinal, ASCII semantics.
 */
module Common {

  datatype Option<T> = None | Some(value: T)

  // ---------------------------------------------------------------------------
  // Characters (ASCII letters only; the scripts only ever see ASCII identifiers)
  // ---------------------------------------------------------------------------

  predicate IsUpper(c: char) { 'A' <= c <= 'Z' }

  predicate IsLower(c: char) { 'a' <= c <= 'z' }

  function ToUpper(c: char): (u: char)
    ensures IsLower(c) ==> IsUpper(u) && u as int == c as int - 32
    ensures !IsLower(c) ==> u == c
  {
    if IsLower(c) then (c as int - 32) as char else c
  }

  function LowerChar(c: char): (l: char)
    ensures IsUpper(c) ==> IsLower(l) && l as int == c as int + 32
    ensures !IsUpper(c) ==> l == c
  {
    if IsUpper(c) then (c as int + 32) as char else c
  }

  /** string.ToLower(), ASCII only. */
  function ToLower(s: string): (r: string)
    ensures |r| == |s|
    ensures forall i :: 0 <= i < |s| ==> r[i] == LowerChar(s[i])
  {
    if s == [] then [] else [LowerChar(s[0])] + ToLower(s[1..])
  }

  // ---------------------------------------------------------------------------
  // Substrings
  // ---------------------------------------------------------------------------

  predicate StartsWith(s: string, p: string) {
    |p| <= |s| && s[..|p|] == p
  }

  /** string.Contains(p), ordinal. */
  predicate Contains(s: string, p: string)
    decreases |s|
  {
    StartsWith(s, p) || (|s| > 0 && Contains(s[1..], p))
  }

  /** Contains agrees with IndexOf: p occurs in s exactly when IndexOf finds it. */
  lemma {:induction false} ContainsIndexOf(s: string, p: string)
    ensures Contains(s, p) <==> IndexOf(s, p) >= 0
    decreases |s|
  {
    if !StartsWith(s, p) && |s| > 0 {
      ContainsIndexOf(s[1..], p);
    }
  }

  /** string.IndexOf(c): the first index holding c, or -1. */
  function IndexOfChar(s: string, c: char): (r: int)
    ensures -1 <= r < |s|
    ensures r >= 0 ==> s[r] == c && forall j :: 0 <= j < r ==> s[j] != c
    ensures r == -1 <==> c !in s
  {
    if s == [] then -1
    else if s[0] == c then 0
    else var k := IndexOfChar(s[1..], c); if k == -1 then -1 else k + 1
  }

  /** string.IndexOf(p): the first index at which p starts, or -1. */
  function IndexOf(s: string, p: string): (r: int)
    ensures -1 <= r <= |s|
    ensures r >= 0 ==> StartsWith(s[r..], p)
    ensures r >= 0 ==> forall j :: 0 <= j < r ==> !StartsWith(s[j..], p)
    ensures r == -1 ==> forall j :: 0 <= j <= |s| ==> !StartsWith(s[j..], p)
    decreases |s|
  {
    if StartsWith(s, p) then 0
    else if s == [] then -1
    else
      var k := IndexOf(s[1..], p);
      assert forall j :: 1 <= j <= |s| ==> s[j..] == s[1..][j - 1..];
      if k == -1 then -1 else k + 1
  }

  /**
   * string.Replace(pat, rep): every non-overlapping occurrence of pat, scanning from
   * the left, is replaced by rep (.NET refuses an empty pattern).
   */
  function ReplaceAll(s: string, pat: string, rep: string): string
    requires |pat| > 0
    decreases |s|
  {
    if |s| < |pat| then s
    else if s[..|pat|] == pat then rep + ReplaceAll(s[|pat|..], pat, rep)
    else [s[0]] + ReplaceAll(s[1..], pat, rep)
  }

  /** Replacing a pattern that does not occur leaves the string as it was. */
  lemma {:induction false} ReplaceAbsent(s: string, pat: string, rep: string)
    requires |pat| > 0
    requires !Contains(s, pat)
    ensures ReplaceAll(s, pat, rep) == s
  {
    if |s| >= |pat| {
      ReplaceAbsent(s[1..], pat, rep);
      assert [s[0]] + s[1..] == s;
    }
  }

  // ---------------------------------------------------------------------------
  // Decimal numerals: int.ToString() and its inverse
  // ---------------------------------------------------------------------------

  function Digit(d: nat): (c: char)
    requires d < 10
    ensures '0' <= c <= '9'
  {
    (d + '0' as int) as char
  }

  function DigitValue(c: char): nat {
    if '0' <= c <= '9' then (c as int - '0' as int) else 0
  }

  predicate AllDigits(s: string) {
    forall i :: 0 <= i < |s| ==> '0' <= s[i] <= '9'
  }

  /** n.ToString() for n >= 0: decimal, most significant digit first, no leading zeros. */
  function NatToString(n: nat): (s: string)
    ensures |s| >= 1 && AllDigits(s)
    ensures |s| == 1 <==> n < 10
    ensures n >= 10 ==> s[0] != '0'
    decreases n
  {
    if n < 10 then [Digit(n)] else NatToString(n / 10) + [Digit(n % 10)]
  }

  /** int.ToString(): a minus sign in front of the magnitude of a negative number. */
  function IntToString(i: int): (s: string)
    ensures i >= 0 ==> s == NatToString(i)
    ensures i < 0 ==> s == "-" + NatToString(-i)
  {
    if i >= 0 then NatToString(i) else "-" + NatToString(-i)
  }

  /** Reads a string of decimal digits back as a number. */
  function ParseNat(s: string): nat
    decreases |s|
  {
    if s == [] then 0 else ParseNat(s[..|s| - 1]) * 10 + DigitValue(s[|s| - 1])
  }

  /** Printing a number and reading it back gives the number. */
  lemma {:induction false} ParseNatToString(n: nat)
    ensures ParseNat(NatToString(n)) == n
    decreases n
  {
    var s := NatToString(n);
    if n < 10 {
      assert s[..0] == [];
    } else {
      ParseNatToString(n / 10);
      assert s[..|s| - 1] == NatToString(n / 10);
      assert s[|s| - 1] == Digit(n % 10);
    }
  }

  /** Lower-casing keeps an occurrence: if s contains p, lower-cased s contains lower-cased p. */
  lemma {:induction false} ContainsToLower(s: string, p: string)
    requires Contains(s, p)
    ensures Contains(ToLower(s), ToLower(p))
    decreases |s|
  {
    var ls := ToLower(s);
    if StartsWith(s, p) {
      assert ls[..|p|] == ToLower(p) by {
        assert forall i :: 0 <= i < |p| ==> ls[i] == LowerChar(s[i]) && s[i] == p[i];
      }
    } else {
      ContainsToLower(s[1..], p);
      assert ls[1..] == ToLower(s[1..]);
    }
  }

  /** An occurrence of a + b contains an occurrence of b. */
  lemma {:induction false} ContainsSuffix(s: string, a: string, b: string)
    requires Contains(s, a + b)
    ensures Contains(s, b)
    decreases |s|
  {
    if StartsWith(s, a + b) {
      StartsAt(s, a, b);
    } else {
      ContainsSuffix(s[1..], a, b);
    }
  }

  /** Where a + b starts, b starts |a| characters later. */
  lemma {:induction false} StartsAt(s: string, a: string, b: string)
    requires StartsWith(s, a + b)
    ensures Contains(s, b)
    decreases |a|
  {
    if a == [] {
      assert a + b == b;
    } else {
      assert StartsWith(s[1..], a[1..] + b) by {
        assert s[1..][..|a[1..] + b|] == (a + b)[1..];
        assert (a + b)[1..] == a[1..] + b;
      }
      StartsAt(s[1..], a[1..], b);
    }
  }

  /** A string shorter than the pattern does not contain it. */
  lemma {:induction false} NotContainsLonger(s: string, p: string)
    requires |s| < |p|
    ensures !Contains(s, p)
    decreases |s|
  {
    if |s| > 0 {
      NotContainsLonger(s[1..], p);
    }
  }
}
