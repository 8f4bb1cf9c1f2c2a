/**
 * The string operations both tiers rely on: lower-casing, substring search
 * (`indexOf`), case-insensitive comparison and decimal rendering of numbers.
 * Strings are sequences of characters; case mapping covers the ASCII letters.
 */
module Strings {

  /** Lower-case one character: 'A'..'Z' become 'a'..'z', everything else is kept. */
  function LowerChar(c: char): char {
    if 'A' <= c <= 'Z' then (c as int + 32) as char else c
  }

  /** `s.toLowerCase()`: the string with every character lower-cased in place. */
  function Lower(s: string): (r: string)
    ensures |r| == |s|
    ensures forall i :: 0 <= i < |s| ==> r[i] == LowerChar(s[i])
  {
    if s == [] then [] else [LowerChar(s[0])] + Lower(s[1..])
  }

  /** Lower-casing twice is lower-casing once. */
  lemma LowerIdempotent(s: string)
    ensures Lower(Lower(s)) == Lower(s)
  {
    assert forall i :: 0 <= i < |s| ==> LowerChar(LowerChar(s[i])) == LowerChar(s[i]);
  }

  /** `sub` occurs in `s` starting at index `i`. */
  predicate OccursAt(s: string, sub: string, i: int) {
    0 <= i && i + |sub| <= |s| && s[i..i + |sub|] == sub
  }

  /** `s.indexOf(sub)`: the first index at which `sub` occurs in `s`, or -1 when it does not occur. */
  function IndexOf(s: string, sub: string): (r: int)
    ensures r == -1 || OccursAt(s, sub, r)
    ensures forall i :: 0 <= i < r || (r == -1 && 0 <= i) ==> !OccursAt(s, sub, i)
    decreases |s|
  {
    if |sub| <= |s| && s[..|sub|] == sub then 0
    else if s == [] then -1
    else
      var k := IndexOf(s[1..], sub);
      assert forall i :: 1 <= i ==> (OccursAt(s, sub, i) <==> OccursAt(s[1..], sub, i - 1)) by {
        forall i | 1 <= i ensures OccursAt(s, sub, i) <==> OccursAt(s[1..], sub, i - 1) {
          OccursAfterFirst(s, sub, i);
        }
      }
      if k == -1 then -1 else k + 1
  }

  /** Past the first character, `sub` occurs in `s` where it occurs, one index earlier, in the rest. */
  lemma OccursAfterFirst(s: string, sub: string, i: int)
    requires s != [] && 1 <= i
    ensures OccursAt(s, sub, i) <==> OccursAt(s[1..], sub, i - 1)
  {
    if i + |sub| <= |s| {
      assert s[1..][i - 1..i - 1 + |sub|] == s[i..i + |sub|];
    }
  }

  /** `s.indexOf(sub) !== -1`: `sub` occurs somewhere in `s`. */
  predicate Contains(s: string, sub: string) {
    IndexOf(s, sub) != -1
  }

  /** Containment means an occurrence at some index. */
  lemma ContainsIff(s: string, sub: string)
    ensures Contains(s, sub) <==> exists i :: OccursAt(s, sub, i)
  {
    if Contains(s, sub) {
      assert OccursAt(s, sub, IndexOf(s, sub));
    }
  }

  /** A string that lacks the first character of `sub` cannot contain `sub`. */
  lemma MissingFirstChar(s: string, sub: string)
    requires |sub| > 0
    requires forall i :: 0 <= i < |s| ==> s[i] != sub[0]
    ensures !Contains(s, sub)
  {
    forall i | 0 <= i && i + |sub| <= |s|
      ensures !OccursAt(s, sub, i)
    {
      assert s[i..i + |sub|][0] == s[i];
    }
  }

  /** A string holding `sub` character by character from index `at` contains it. */
  lemma ContainsAt(s: string, sub: string, at: nat)
    requires at + |sub| <= |s|
    requires forall k :: 0 <= k < |sub| ==> s[at + k] == sub[k]
    ensures Contains(s, sub)
  {
    assert s[at..at + |sub|] == sub;
    assert OccursAt(s, sub, at);
    ContainsIff(s, sub);
  }

  /**
   * A string holding neither the lower-case letter `sub[0]` nor its upper-case form
   * does not contain `sub` once lower-cased.
   */
  lemma LowerLacks(s: string, sub: string)
    requires |sub| > 0 && 'a' <= sub[0] <= 'z'
    requires forall i :: 0 <= i < |s| ==> s[i] != sub[0] && s[i] != (sub[0] as int - 32) as char
    ensures !Contains(Lower(s), sub)
  {
    var low := Lower(s);
    forall i | 0 <= i < |low|
      ensures low[i] != sub[0]
    {
      LowerCharMisses(s[i], sub[0]);
    }
    MissingFirstChar(low, sub);
  }

  /** A character that is neither the lower-case letter `d` nor its upper-case form does not lower-case to `d`. */
  lemma LowerCharMisses(c: char, d: char)
    requires 'a' <= d <= 'z' && c != d && c != (d as int - 32) as char
    ensures LowerChar(c) != d
  {
  }

  /**
   * Java's `a.equalsIgnoreCase(b)` on ASCII text: the same length, and the
   * characters at each position equal once lower-cased.
   */
  predicate EqualsIgnoreCase(a: string, b: string)
    ensures EqualsIgnoreCase(a, b) <==> |a| == |b| && forall i :: 0 <= i < |a| ==> LowerChar(a[i]) == LowerChar(b[i])
  {
    Lower(a) == Lower(b)
  }

  /** The decimal digit character for `d`. */
  function DigitChar(d: nat): (c: char)
    requires d < 10
    ensures '0' <= c <= '9' && c as int - '0' as int == d
  {
    (d + '0' as int) as char
  }

  /** The decimal rendering of a natural number, most significant digit first, no leading zeros. */
  function NatToString(n: nat): (r: string)
    ensures 1 <= |r|
    ensures forall i :: 0 <= i < |r| ==> '0' <= r[i] <= '9'
    ensures |r| > 1 ==> r[0] != '0'
    decreases n
  {
    if n < 10 then [DigitChar(n)] else NatToString(n / 10) + [DigitChar(n % 10)]
  }

  /**
   * JavaScript's rendering of an integral number as text (`${n}`): an optional
   * minus sign and the decimal digits. JavaScript writes this form only for
   * magnitudes below 10^21; larger numbers use exponent notation.
   */
  function IntToString(i: int): (r: string)
    ensures 1 <= |r|
  {
    if i < 0 then "-" + NatToString(-i) else NatToString(i)
  }

  /** The value of a string of decimal digits. */
  function DecimalValue(s: string): nat
    decreases |s|
  {
    if s == [] then 0
    else
      var d := s[|s| - 1] as int - '0' as int;
      DecimalValue(s[..|s| - 1]) * 10 + (if 0 <= d < 10 then d else 0)
  }

  /** Reading back a rendered natural number gives the number. */
  lemma {:induction false} NatToStringRoundTrip(n: nat)
    ensures DecimalValue(NatToString(n)) == n
    decreases n
  {
    var r := NatToString(n);
    if n >= 10 {
      NatToStringRoundTrip(n / 10);
      assert r[..|r| - 1] == NatToString(n / 10);
    }
  }

  /** Reading back a rendered integer (a leading '-' for negatives) gives the integer. */
  lemma IntToStringRoundTrip(i: int)
    ensures i < 0 ==> IntToString(i)[0] == '-' && DecimalValue(IntToString(i)[1..]) == -i
    ensures i >= 0 ==> IntToString(i)[0] != '-' && DecimalValue(IntToString(i)) == i
  {
    if i < 0 {
      NatToStringRoundTrip(-i);
      assert IntToString(i)[1..] == NatToString(-i);
    } else {
      NatToStringRoundTrip(i);
    }
  }
}
