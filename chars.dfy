// Character-level helpers shared by the parsers: ASCII digits, ASCII
// lower-casing, the whitespace class of a regular expression's `\s`, and
// Rust's `str::parse::<u32>`.
module Chars {
  import opened Wrappers

  const U32Max: nat := 0xFFFF_FFFF

  predicate IsDigit(c: char) { '0' <= c <= '9' }

  function DigitValue(c: char): (d: nat)
    requires IsDigit(c)
    ensures d < 10
  {
    (c as int - '0' as int) as nat
  }

  /** The whitespace characters of the ASCII subset of `\s`. */
  predicate IsSpace(c: char) {
    c == ' ' || c == '\t' || c == '\n' || c == '\r' || c == '\U{B}' || c == '\U{C}'
  }

  function LowerChar(c: char): (r: char)
    ensures 'A' <= c <= 'Z' ==> r as int == c as int + 32
    ensures !('A' <= c <= 'Z') ==> r == c
  {
    if 'A' <= c <= 'Z' then (c as int + 32) as char else c
  }

  /** ASCII lower-casing of a string, character by character. */
  function Lower(s: string): (r: string)
    ensures |r| == |s|
    ensures forall i :: 0 <= i < |s| ==> r[i] == LowerChar(s[i])
  {
    if s == [] then [] else [LowerChar(s[0])] + Lower(s[1..])
  }

  lemma {:induction false} LowerIdempotent(s: string)
    ensures Lower(Lower(s)) == Lower(s)
  {
    if s != [] {
      LowerIdempotent(s[1..]);
      assert Lower(s)[1..] == Lower(s[1..]);
    }
  }

  predicate AllDigits(s: string) {
    forall i :: 0 <= i < |s| ==> IsDigit(s[i])
  }

  /** The decimal value of a string of ASCII digits, most significant first. */
  function DecimalValue(s: string): (n: nat)
    requires AllDigits(s)
  {
    if s == [] then 0 else DecimalValue(s[..|s| - 1]) * 10 + DigitValue(s[|s| - 1])
  }

  /** Unsigned decimal parse as Rust's `u32::from_str` does it: an optional
    * leading '+', then one or more ASCII digits, value at most 2^32 - 1. */
  function ParseU32(s: string): (r: Option<nat>)
    ensures r.Some? ==> r.value <= U32Max
    ensures r.Some? ==> |s| > 0
  {
    var digits := if |s| > 0 && s[0] == '+' then s[1..] else s;
    if |digits| == 0 || !AllDigits(digits) then None
    else if DecimalValue(digits) > U32Max then None
    else Some(DecimalValue(digits))
  }

  /** The canonical decimal rendering of a natural number. */
  function NatToString(n: nat): (s: string)
    ensures |s| > 0 && AllDigits(s)
    decreases n
  {
    if n < 10 then [('0' as int + n) as char]
    else NatToString(n / 10) + [('0' as int + n % 10) as char]
  }

  lemma {:induction false} DecimalOfNatToString(n: nat)
    ensures DecimalValue(NatToString(n)) == n
    decreases n
  {
    var s := NatToString(n);
    if n >= 10 {
      DecimalOfNatToString(n / 10);
      assert s[..|s| - 1] == NatToString(n / 10);
    }
  }

  /** Every number in range renders to a string that parses back to it. */
  lemma ParseU32RoundTrip(n: nat)
    requires n <= U32Max
    ensures ParseU32(NatToString(n)) == Some(n)
  {
    DecimalOfNatToString(n);
  }

  /** A string that contains a character that is neither '+' nor a digit does not parse. */
  lemma ParseU32RejectsNonDigit(s: string, i: nat)
    requires i < |s| && !IsDigit(s[i]) && s[i] != '+'
    ensures ParseU32(s) == None
  {
    if |s| > 0 && s[0] == '+' {
      assert s[1..][i - 1] == s[i];
    }
  }
}
