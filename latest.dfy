// `Latest::latest` and `select_latest`, the variant the state filters use.
// The code is the same as `newest`'s: a stable in-place sort and the last
// element, so the specification is `NewestOf`.
module LatestEvents {
  import opened Orderings
  import opened PacmanEvents
  import opened Grouping
  import opened NewestEvents
  import StableSort

  /** `latest`: sorts the vector in place and returns its last element, a
    * maximum of the old contents and, on ties, the last of them. */
  method Latest(a: array<PacmanEvent>) returns (e: PacmanEvent)
    requires a.Length > 0
    modifies a
    ensures StableSort.Sorted(Cmp, a[..]) && multiset(a[..]) == multiset(old(a[..]))
    ensures e == a[a.Length - 1] == NewestOf(old(a[..]))
    ensures e == old(a[..])[LatestIndex(old(a[..]))]
  {
    ghost var s := a[..];
    StableSort.SortInPlace(Cmp, a);
    CmpTotalPreorder();
    StableSort.SortSorted(Cmp, s);
    StableSort.SortPermutes(Cmp, s);
    e := a[a.Length - 1];
    assert e == NewestOf(s);
  }

  /** `select_latest`: one entry per group, its latest event. */
  method SelectLatest(groups: Groups) returns (latest: map<string, PacmanEvent>)
    requires forall p :: p in groups ==> |groups[p]| > 0
    ensures latest.Keys == groups.Keys
    ensures forall p :: p in groups ==> latest[p] == NewestOf(groups[p])
  {
    latest := map[];
    var rest := groups.Keys;
    while rest != {}
      invariant rest <= groups.Keys
      invariant latest.Keys == groups.Keys - rest
      invariant forall p :: p in latest ==> latest[p] == NewestOf(groups[p])
      decreases rest
    {
      var p :| p in rest;
      var a := ToArray(groups[p]);
      var e := Latest(a);
      latest := latest[p := e];
      rest := rest - {p};
    }
  }
}
