// `Newest::newest` and `select_newest`: sort a package's events in place and
// take the last one; do that for every group of a map.
module NewestEvents {
  import opened Orderings
  import opened PacmanEvents
  import opened Grouping
  import StableSort

  /** `s[k]` is the latest event of `s`: no event is greater, and every
    * event after it is strictly smaller. */
  predicate IsLatestAt(s: seq<PacmanEvent>, k: int) {
    0 <= k < |s| &&
    (forall i :: 0 <= i < |s| ==> Le(s[i], s[k])) &&
    (forall j :: k < j < |s| ==> Cmp(s[j], s[k]) == Less)
  }

  /** The position of the latest event: the last maximal one. */
  function LatestIndex(s: seq<PacmanEvent>): (k: int)
    requires |s| > 0
    ensures IsLatestAt(s, k)
  {
    CmpTotalPreorder();
    StableSort.LastMax(Cmp, s)
  }

  /** The event `newest` returns: the last of the stably sorted events. It
    * is the event at the latest position (on ties the last one wins). */
  function NewestOf(s: seq<PacmanEvent>): (e: PacmanEvent)
    requires |s| > 0
    ensures e == s[LatestIndex(s)]
  {
    CmpTotalPreorder();
    StableSort.SortLastIsLastMax(Cmp, s);
    StableSort.Sort(Cmp, s)[|s| - 1]
  }

  /** Only one position is the latest, so `NewestOf` is the event there. */
  lemma NewestOfUnique(s: seq<PacmanEvent>, k: int)
    requires IsLatestAt(s, k)
    ensures NewestOf(s) == s[k]
  {
    var m := LatestIndex(s);
    if m < k {
      CmpFlip(s[m], s[k]);
    } else if k < m {
      CmpFlip(s[k], s[m]);
    }
  }

  /** The newest event is one of the events and a maximum of them. */
  lemma NewestOfMaximum(s: seq<PacmanEvent>)
    requires |s| > 0
    ensures NewestOf(s) in s
    ensures forall i :: 0 <= i < |s| ==> Le(s[i], NewestOf(s))
  {
    assert IsLatestAt(s, LatestIndex(s));
  }

  /** A group of one event: that event is the newest. */
  lemma NewestOfSingleton(e: PacmanEvent)
    ensures NewestOf([e]) == e
  {
    CmpEqual(e, e);
    NewestOfUnique([e], 0);
  }

  /** Copies a vector into a fresh array. */
  method ToArray(s: seq<PacmanEvent>) returns (a: array<PacmanEvent>)
    ensures fresh(a) && a[..] == s
  {
    a := new PacmanEvent[|s|](i requires 0 <= i < |s| => s[i]);
  }

  /** `newest`: sorts the vector in place and returns its last element. */
  method Newest(a: array<PacmanEvent>) returns (e: PacmanEvent)
    requires a.Length > 0
    modifies a
    ensures a[..] == StableSort.Sort(Cmp, old(a[..]))
    ensures StableSort.Sorted(Cmp, a[..]) && multiset(a[..]) == multiset(old(a[..]))
    ensures e == a[a.Length - 1] == NewestOf(old(a[..]))
  {
    ghost var s := a[..];
    StableSort.SortInPlace(Cmp, a);
    CmpTotalPreorder();
    StableSort.SortSorted(Cmp, s);
    StableSort.SortPermutes(Cmp, s);
    e := a[a.Length - 1];
  }

  /** `select_newest`: the newest event of every group, under the same key. */
  method SelectNewest(groups: Groups) returns (newest: map<string, PacmanEvent>)
    requires forall p :: p in groups ==> |groups[p]| > 0
    ensures newest.Keys == groups.Keys
    ensures forall p :: p in newest ==> newest[p] == NewestOf(groups[p])
  {
    newest := map[];
    var rest := groups.Keys;
    while rest != {}
      invariant rest <= groups.Keys
      invariant newest.Keys == groups.Keys - rest
      invariant forall p :: p in newest ==> newest[p] == NewestOf(groups[p])
      decreases rest
    {
      var p :| p in rest;
      var a := ToArray(groups[p]);
      var e := Newest(a);
      newest := newest[p := e];
      rest := rest - {p};
    }
  }
}
