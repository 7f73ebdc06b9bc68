/** The few java.lang.String operations the modelled code relies on, over `seq<char>`. */
module Strings {
  import opened Common

  /** `pat` occurs in `s` starting at index `i`. */
  predicate OccursAt(s: string, pat: string, i: nat)
  {
    i + |pat| <= |s| && s[i..i + |pat|] == pat
  }

  /** String.indexOf(String): the first index at which `pat` occurs, None standing for -1. */
  function IndexOf(s: string, pat: string): (r: Option<nat>)
    ensures r.None? ==> forall i: nat :: !OccursAt(s, pat, i)
    ensures r.Some? ==> OccursAt(s, pat, r.value)
    ensures r.Some? ==> forall i: nat :: i < r.value ==> !OccursAt(s, pat, i)
    decreases |s|
  {
    if |pat| > |s| then None
    else if s[..|pat|] == pat then Some(0)
    else
      ShiftOccurs(s, pat);
      match IndexOf(s[1..], pat)
      case None => None
      case Some(j) => Some(j + 1)
  }

  /** An occurrence at a positive index of `s` is an occurrence one position earlier in its tail. */
  lemma ShiftOccurs(s: string, pat: string)
    requires |s| > 0
    ensures forall i: nat :: i >= 1 ==> (OccursAt(s, pat, i) <==> OccursAt(s[1..], pat, i - 1))
  {
    forall i: nat | i >= 1 && i + |pat| <= |s|
      ensures OccursAt(s, pat, i) <==> OccursAt(s[1..], pat, i - 1)
    {
      assert s[1..][i - 1..i - 1 + |pat|] == s[i..i + |pat|];
    }
  }

  /** String.contains. */
  predicate Contains(s: string, pat: string)
  {
    IndexOf(s, pat).Some?
  }

  /** String.startsWith. */
  predicate StartsWith(s: string, prefix: string)
  {
    |prefix| <= |s| && s[..|prefix|] == prefix
  }

  /** String.endsWith. */
  predicate EndsWith(s: string, suffix: string)
  {
    |suffix| <= |s| && s[|s| - |suffix|..] == suffix
  }

  /** Lower-casing of one character, for the ASCII letters only. */
  function LowerChar(c: char): char
  {
    if 'A' <= c <= 'Z' then (c as int + 32) as char else c
  }

  /** String.toLowerCase, restricted to ASCII letters. */
  function Lower(s: string): (r: string)
    ensures |r| == |s|
    ensures forall i :: 0 <= i < |s| ==> r[i] == LowerChar(s[i])
  {
    seq(|s|, i requires 0 <= i < |s| => LowerChar(s[i]))
  }

  /** String.replace(char, char). */
  function Replace(s: string, from: char, to: char): (r: string)
    ensures |r| == |s|
    ensures forall i :: 0 <= i < |s| ==> r[i] == if s[i] == from then to else s[i]
  {
    seq(|s|, i requires 0 <= i < |s| => if s[i] == from then to else s[i])
  }

  /** An occurrence found by Contains is an occurrence, and every occurrence is found. */
  lemma ContainsIff(s: string, pat: string, i: nat)
    ensures OccursAt(s, pat, i) ==> Contains(s, pat)
    ensures Contains(s, pat) ==> OccursAt(s, pat, IndexOf(s, pat).value)
  {
  }

  /** Lower-casing twice is lower-casing once. */
  lemma LowerIdempotent(s: string)
    ensures Lower(Lower(s)) == Lower(s)
  {
  }

  /** Lower-casing preserves a suffix relation (applied on both sides). */
  lemma {:induction false} EndsWithLower(s: string, suffix: string)
    requires EndsWith(s, suffix)
    ensures EndsWith(Lower(s), Lower(suffix))
  {
    var k := |s| - |suffix|;
    forall i | 0 <= i < |suffix|
      ensures Lower(s)[k..][i] == Lower(suffix)[i]
    {
      assert s[k..][i] == suffix[i];
    }
  }

  /** Lower-casing preserves a prefix relation (applied on both sides). */
  lemma {:induction false} StartsWithLower(s: string, prefix: string)
    requires StartsWith(s, prefix)
    ensures StartsWith(Lower(s), Lower(prefix))
  {
    forall i | 0 <= i < |prefix|
      ensures Lower(s)[..|prefix|][i] == Lower(prefix)[i]
    {
      assert s[..|prefix|][i] == prefix[i];
    }
  }

  /** Replacing a character inside a string replaces it inside every occurrence it contains. */
  lemma {:induction false} ContainsReplace(s: string, pat: string, from: char, to: char)
    requires Contains(s, pat)
    ensures Contains(Replace(s, from, to), Replace(pat, from, to))
  {
    var i := IndexOf(s, pat).value;
    var rs, rp := Replace(s, from, to), Replace(pat, from, to);
    forall k | 0 <= k < |pat|
      ensures rs[i..i + |pat|][k] == rp[k]
    {
      assert s[i..i + |pat|][k] == pat[k];
    }
    assert OccursAt(rs, rp, i);
    ContainsIff(rs, rp, i);
  }

  /** Replacing back restores the string when the target character did not occur in it. */
  lemma ReplaceRoundTrip(s: string, from: char, to: char)
    requires to !in s
    ensures Replace(Replace(s, from, to), to, from) == s
  {
  }
}
