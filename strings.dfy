/**
 * Text helpers the rest of the model relies on: lower-casing, Python's
 * substring test `pat in text`, character counting, decimal rendering of
 * natural numbers, and splitting a string at the first occurrence of a
 * separator.
 */
module Strings {
  import opened Wrappers

  // ---------------------------------------------------------------------
  // Lower-casing (ASCII only; see README)
  // ---------------------------------------------------------------------

  predicate IsUpper(c: char) {
    'A' <= c <= 'Z'
  }

  function LowerChar(c: char): char {
    if IsUpper(c) then (c as int - 'A' as int + 'a' as int) as char else c
  }

  /**
   * The lower-case text that agrees with `s` up to case: same length, no
   * upper-case letter, and each position the same letter as in `s`.
   */
  function Lower(s: string): (r: string)
    ensures |r| == |s| && IsLower(r)
    ensures forall i :: 0 <= i < |s| ==> LowerChar(r[i]) == LowerChar(s[i])
  {
    seq(|s|, i requires 0 <= i < |s| => LowerChar(s[i]))
  }

  /** No character of `s` is an upper-case letter. */
  predicate IsLower(s: string) {
    forall i :: 0 <= i < |s| ==> !IsUpper(s[i])
  }

  /** Lower-casing yields lower-case text and is idempotent. */
  lemma LowerIdempotent(s: string)
    ensures IsLower(Lower(s))
    ensures Lower(Lower(s)) == Lower(s)
  {
  }

  /** Text that is already lower case is left alone. */
  lemma LowerFixesLower(s: string)
    requires IsLower(s)
    ensures Lower(s) == s
  {
  }

  // ---------------------------------------------------------------------
  // Substrings
  // ---------------------------------------------------------------------

  /** `pat` occurs in `text` starting at index `i`. */
  predicate OccursAt(text: string, pat: string, i: nat) {
    i + |pat| <= |text| && text[i..i + |pat|] == pat
  }

  /** Python's `pat in text`: `pat` occurs at some index of `text`. */
  predicate Contains(text: string, pat: string) {
    exists i: nat | i <= |text| :: OccursAt(text, pat, i)
  }

  /** A pattern holding a character the text lacks does not occur in it. */
  lemma AbsentCharExcludes(text: string, pat: string, c: char)
    requires c in pat && c !in text
    ensures !Contains(text, pat)
  {
    var j :| 0 <= j < |pat| && pat[j] == c;
    forall i: nat | i + |pat| <= |text| ensures !OccursAt(text, pat, i) {
      assert text[i..i + |pat|][j] == text[i + j];
    }
  }

  /**
   * A pattern that lacks character `c` occurs in `a + [c] + b` only if it
   * occurs in `a` or in `b`.
   */
  lemma SeparatorExcludes(a: string, c: char, b: string, pat: string)
    requires c !in pat
    requires !Contains(a, pat) && !Contains(b, pat)
    ensures !Contains(a + [c] + b, pat)
  {
    var s := a + [c] + b;
    forall i: nat | i + |pat| <= |s| ensures !OccursAt(s, pat, i) {
      if i + |pat| <= |a| {
        assert s[i..i + |pat|] == a[i..i + |pat|];
        assert !OccursAt(a, pat, i);
      } else if i > |a| {
        assert s[i..i + |pat|] == b[i - |a| - 1..i - |a| - 1 + |pat|];
        assert !OccursAt(b, pat, i - |a| - 1);
      } else {
        assert s[i..i + |pat|][|a| - i] == c;
      }
    }
  }

  /** Lower-casing a string whose tail is already lower case touches only its head. */
  lemma LowerCons(c: char, rest: string)
    requires IsLower(rest)
    ensures Lower([c] + rest) == [LowerChar(c)] + rest
  {
  }

  /** A match survives lower-casing both sides. */
  lemma LowerPreservesContains(text: string, pat: string)
    requires Contains(text, pat)
    ensures Contains(Lower(text), Lower(pat))
  {
    var i: nat :| i <= |text| && OccursAt(text, pat, i);
    assert Lower(text)[i..i + |pat|] == Lower(pat);
    assert OccursAt(Lower(text), Lower(pat), i);
  }

  /** Occurrences in `s[1..]` are occurrences in `s`, one index later. */
  lemma OccursShift(s: string, pat: string)
    requires s != []
    ensures OccursAt(s, pat, 0) <==> pat <= s
    ensures forall i: nat :: 0 < i ==> (OccursAt(s, pat, i) <==> OccursAt(s[1..], pat, i - 1))
  {
    var tail := s[1..];
    forall i: nat | 0 < i ensures OccursAt(s, pat, i) <==> OccursAt(tail, pat, i - 1) {
      if i + |pat| <= |s| {
        var here, there := s[i..i + |pat|], tail[i - 1..i - 1 + |pat|];
        forall k | 0 <= k < |pat| ensures here[k] == there[k] {
          assert tail[i - 1 + k] == s[i + k];
        }
        assert here == there;
      }
    }
  }

  /** Index of the first occurrence of `sep` in `s`, if any. */
  function FindFirst(s: string, sep: string): (r: Option<nat>)
    ensures r.Some? ==> OccursAt(s, sep, r.value)
    ensures r.Some? ==> forall i :: 0 <= i < r.value ==> !OccursAt(s, sep, i)
    ensures r.None? ==> forall i: nat :: !OccursAt(s, sep, i)
  {
    if sep <= s then Some(0)
    else if s == [] then None
    else
      OccursShift(s, sep);
      match FindFirst(s[1..], sep)
      case None => None
      case Some(i) => Some(i + 1)
  }

  /**
   * The substring test agrees with the search: `pat` is in `text` exactly
   * when a first occurrence is found. The empty pattern is in every text.
   */
  lemma ContainsIffFound(text: string, pat: string)
    ensures Contains(text, pat) <==> FindFirst(text, pat).Some?
    ensures pat == [] ==> Contains(text, pat)
  {
    assert OccursAt(text, [], 0);
    if Contains(text, pat) {
      var i: nat :| i <= |text| && OccursAt(text, pat, i);
    }
  }

  /** Split `s` around the first occurrence of `sep`. */
  function SplitAt(s: string, sep: string): (r: Option<(string, string)>)
    ensures r.Some? ==> s == r.value.0 + sep + r.value.1
    ensures r.None? ==> !Contains(s, sep)
  {
    match FindFirst(s, sep)
    case None => None
    case Some(i) =>
      assert s == s[..i] + sep + s[i + |sep|..];
      Some((s[..i], s[i + |sep|..]))
  }

  /** An occurrence inside the common prefix of two strings occurs in both. */
  lemma OccursInCommonPrefix(s: string, prefix: string, pat: string, i: nat)
    requires |prefix| <= |s| && s[..|prefix|] == prefix
    requires i + |pat| <= |prefix| && OccursAt(s, pat, i)
    ensures OccursAt(prefix, pat, i)
  {
    assert prefix[i..i + |pat|] == s[i..i + |pat|];
  }

  /**
   * `SplitAt` undoes `a + sep + b` when `sep` does not occur earlier, not
   * even straddling the end of `a`.
   */
  lemma SplitAtDelimited(a: string, sep: string, b: string)
    requires sep != []
    requires !Contains(a + sep[..|sep| - 1], sep)
    ensures SplitAt(a + sep + b, sep) == Some((a, b))
  {
    var s := a + sep + b;
    var prefix := a + sep[..|sep| - 1];
    assert s[..|prefix|] == prefix;
    assert OccursAt(s, sep, |a|) by {
      assert s[|a|..|a| + |sep|] == sep;
    }
    forall i | 0 <= i < |a| ensures !OccursAt(s, sep, i) {
      if OccursAt(s, sep, i) {
        OccursInCommonPrefix(s, prefix, sep, i);
      }
    }
    assert FindFirst(s, sep) == Some(|a|);
    assert s[..|a|] == a;
    assert s[|a| + |sep|..] == b;
  }

  // ---------------------------------------------------------------------
  // Counting
  // ---------------------------------------------------------------------

  /** Number of occurrences of character `c` in `s`. */
  function CountChar(s: string, c: char): nat {
    multiset(s)[c]
  }

  lemma CountCharConcat(a: string, b: string, c: char)
    ensures CountChar(a + b, c) == CountChar(a, c) + CountChar(b, c)
  {
    assert multiset(a + b) == multiset(a) + multiset(b);
  }

  lemma CountCharAbsent(s: string, c: char)
    requires c !in s
    ensures CountChar(s, c) == 0
  {
    assert c !in multiset(s);
  }

  // ---------------------------------------------------------------------
  // Decimal rendering, as Python's str() of a non-negative int
  // ---------------------------------------------------------------------

  predicate IsDigit(c: char) {
    '0' <= c <= '9'
  }

  predicate IsDigits(s: string) {
    forall i :: 0 <= i < |s| ==> IsDigit(s[i])
  }

  function DigitChar(d: nat): (c: char)
    requires d < 10
  {
    ('0' as int + d) as char
  }

  /** Decimal digits of `n`, most significant first, without leading zeros. */
  function NatToDecimal(n: nat): (r: string)
    ensures r != [] && IsDigits(r)
    ensures n > 0 ==> r[0] != '0'
    ensures |r| == 1 <==> n < 10
    decreases n
  {
    if n < 10 then [DigitChar(n)] else NatToDecimal(n / 10) + [DigitChar(n % 10)]
  }

  /** The number a string of decimal digits denotes. */
  function DecimalValue(s: string): nat
    requires IsDigits(s)
  {
    if s == [] then 0 else 10 * DecimalValue(s[..|s| - 1]) + (s[|s| - 1] as int - '0' as int)
  }

  lemma {:induction false} DecimalRoundTrip(n: nat)
    ensures DecimalValue(NatToDecimal(n)) == n
    decreases n
  {
    if n >= 10 {
      DecimalRoundTrip(n / 10);
      var s := NatToDecimal(n);
      assert s[..|s| - 1] == NatToDecimal(n / 10);
    }
  }

  /** Every rendering reads back as the number it was made from. */
  lemma DecimalRoundTripAll()
    ensures forall n: nat :: DecimalValue(NatToDecimal(n)) == n
  {
    forall n: nat ensures DecimalValue(NatToDecimal(n)) == n {
      DecimalRoundTrip(n);
    }
  }

  /** Different numbers have different decimal renderings. */
  lemma NatToDecimalInjective(m: nat, n: nat)
    requires NatToDecimal(m) == NatToDecimal(n)
    ensures m == n
  {
    DecimalRoundTrip(m);
    DecimalRoundTrip(n);
  }
}
