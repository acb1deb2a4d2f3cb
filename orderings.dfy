// Rust's `std::cmp::Ordering` and the two comparisons the program builds on:
// integers and strings. Rust compares `String`s byte-wise over their UTF-8
// encoding, which orders them exactly as their sequences of Unicode scalar
// values, so strings compare here character by character.
module Orderings {
  datatype Ordering = Less | Equal | Greater

  function Flip(o: Ordering): (r: Ordering)
    ensures r == Less <==> o == Greater
    ensures r == Equal <==> o == Equal
    ensures r == Greater <==> o == Less
  {
    match o
    case Less => Greater
    case Equal => Equal
    case Greater => Less
  }

  function CompareInt(x: int, y: int): (o: Ordering)
    ensures o == Less <==> x < y
    ensures o == Equal <==> x == y
    ensures o == Greater <==> x > y
  {
    if x < y then Less else if x == y then Equal else Greater
  }

  /** Lexicographic comparison; a proper prefix comes first. */
  function CompareStrings(a: string, b: string): (o: Ordering)
    ensures o == Equal <==> a == b
    ensures |a| < |b| && a == b[..|a|] ==> o == Less
    ensures |b| < |a| && b == a[..|b|] ==> o == Greater
  {
    if a == [] && b == [] then Equal
    else if a == [] then Less
    else if b == [] then Greater
    else if a[0] < b[0] then Less
    else if a[0] > b[0] then Greater
    else
      assert a == [a[0]] + a[1..] && b == [b[0]] + b[1..];
      assert |a| < |b| && a == b[..|a|] ==> a[1..] == b[1..][..|a| - 1];
      assert |b| < |a| && b == a[..|b|] ==> b[1..] == a[1..][..|b| - 1];
      CompareStrings(a[1..], b[1..])
  }

  lemma {:induction false} CompareStringsEqual(a: string, b: string)
    ensures CompareStrings(a, b) == Equal <==> a == b
  {
    if a != [] && b != [] && a[0] == b[0] {
      CompareStringsEqual(a[1..], b[1..]);
      assert a == [a[0]] + a[1..] && b == [b[0]] + b[1..];
    }
  }

  lemma {:induction false} CompareStringsFlip(a: string, b: string)
    ensures CompareStrings(b, a) == Flip(CompareStrings(a, b))
  {
    if a != [] && b != [] && a[0] == b[0] {
      CompareStringsFlip(a[1..], b[1..]);
    }
  }

  lemma {:induction false} CompareStringsTransitive(a: string, b: string, c: string)
    requires CompareStrings(a, b) == Less && CompareStrings(b, c) == Less
    ensures CompareStrings(a, c) == Less
  {
    if a != [] && b != [] && c != [] && a[0] == b[0] && b[0] == c[0] {
      CompareStringsTransitive(a[1..], b[1..], c[1..]);
    }
  }

  predicate StringLess(a: string, b: string) { CompareStrings(a, b) == Less }

  predicate StringLe(a: string, b: string) { CompareStrings(a, b) != Greater }
}
