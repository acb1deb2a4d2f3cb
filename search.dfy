// The two searches every repetition of the line grammar reduces to: the last
// position in a range where a property holds (a greedy repetition backing
// off), and the first one (a lazy repetition growing). Both are stated for
// an arbitrary property, so what they find is proved once here.
module Search {
  import opened Wrappers

  /** The largest i in [lo, hi) with p(i). */
  function Last(p: nat -> bool, lo: nat, hi: nat): (r: Option<nat>)
    ensures r.Some? ==> lo <= r.value < hi && p(r.value)
    decreases hi
  {
    if hi <= lo then None
    else if p(hi - 1) then Some(hi - 1)
    else Last(p, lo, hi - 1)
  }

  /** The smallest i in [lo, hi) with p(i). */
  function First(p: nat -> bool, lo: nat, hi: nat): (r: Option<nat>)
    ensures r.Some? ==> lo <= r.value < hi && p(r.value)
    decreases hi - lo
  {
    if hi <= lo then None
    else if p(lo) then Some(lo)
    else First(p, lo + 1, hi)
  }

  /** Nothing after what `Last` finds satisfies p, and nothing at all when it finds nothing. */
  lemma {:induction false} LastMaximal(p: nat -> bool, lo: nat, hi: nat)
    ensures Last(p, lo, hi).Some? ==> forall i :: Last(p, lo, hi).value < i < hi ==> !p(i)
    ensures Last(p, lo, hi).None? ==> forall i :: lo <= i < hi ==> !p(i)
    decreases hi
  {
    if hi > lo && !p(hi - 1) {
      LastMaximal(p, lo, hi - 1);
    }
  }

  /** Conversely, a position with p and none after it is what `Last` finds. */
  lemma {:induction false} LastIs(p: nat -> bool, lo: nat, hi: nat, i: nat)
    requires lo <= i < hi && p(i)
    requires forall k :: i < k < hi ==> !p(k)
    ensures Last(p, lo, hi) == Some(i)
    decreases hi
  {
    if hi - 1 != i {
      LastIs(p, lo, hi - 1, i);
    }
  }

  /** Nothing before what `First` finds satisfies p, and nothing at all when it finds nothing. */
  lemma {:induction false} FirstMinimal(p: nat -> bool, lo: nat, hi: nat)
    ensures First(p, lo, hi).Some? ==> forall i :: lo <= i < First(p, lo, hi).value ==> !p(i)
    ensures First(p, lo, hi).None? ==> forall i :: lo <= i < hi ==> !p(i)
    decreases hi - lo
  {
    if hi > lo && !p(lo) {
      FirstMinimal(p, lo + 1, hi);
    }
  }

  /** Conversely, a position with p and none before it is what `First` finds. */
  lemma {:induction false} FirstIs(p: nat -> bool, lo: nat, hi: nat, i: nat)
    requires lo <= i < hi && p(i)
    requires forall k :: lo <= k < i ==> !p(k)
    ensures First(p, lo, hi) == Some(i)
    decreases i - lo
  {
    if lo != i {
      FirstIs(p, lo + 1, hi, i);
    }
  }
}
