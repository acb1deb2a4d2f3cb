// `range`: the window of packages. Every package is ranked by the date of the
// last event stored in its group, with the package name breaking ties; the
// ranked names are sorted, the first or the last `n` of them are selected,
// and the groups of the selected packages are copied into a new map.
module Windowing {
  import opened Wrappers
  import opened Orderings
  import DateTimes
  import opened PacmanEvents
  import opened Grouping
  import opened Options
  import StableSort

  /** A package and the date of the last event of its group. */
  type Entry = (string, DateTimes.DateTime)

  /** The comparator of the ranking: dates first, equal dates by name. */
  function RankCmp(a: Entry, b: Entry): Ordering {
    if a.1 == b.1 then CompareStrings(a.0, b.0) else DateTimes.Compare(a.1, b.1)
  }

  lemma RankCmpEqual(a: Entry, b: Entry)
    ensures RankCmp(a, b) == Equal <==> a == b
  {
    CompareStringsEqual(a.0, b.0);
  }

  lemma RankCmpFlip(a: Entry, b: Entry)
    ensures RankCmp(b, a) == Flip(RankCmp(a, b))
  {
    CompareStringsFlip(a.0, b.0);
    DateTimes.CompareFlip(a.1, b.1);
  }

  lemma RankCmpLessTransitive(a: Entry, b: Entry, c: Entry)
    requires RankCmp(a, b) == Less && RankCmp(b, c) == Less
    ensures RankCmp(a, c) == Less
  {
    if a.1 == b.1 && b.1 == c.1 {
      CompareStringsTransitive(a.0, b.0, c.0);
    } else if a.1 != b.1 && b.1 != c.1 {
      if a.1 == c.1 {
        DateTimes.CompareFlip(a.1, b.1);
      } else {
        DateTimes.CompareTransitive(a.1, b.1, c.1);
      }
    }
  }

  /** The ranking comparator is one the stable sort accepts. */
  lemma RankCmpTotalPreorder()
    ensures StableSort.TotalPreorder(RankCmp)
  {
    forall a: Entry, b: Entry ensures RankCmp(b, a) == Flip(RankCmp(a, b)) {
      RankCmpFlip(a, b);
    }
    forall a: Entry, b: Entry, c: Entry | RankCmp(a, b) != Greater && RankCmp(b, c) != Greater
      ensures RankCmp(a, c) != Greater
    {
      RankCmpEqual(a, b);
      RankCmpEqual(b, c);
      if RankCmp(a, b) == Less && RankCmp(b, c) == Less {
        RankCmpLessTransitive(a, b, c);
      }
    }
  }

  predicate NonEmptyGroups(groups: Groups) {
    forall p :: p in groups ==> |groups[p]| > 0
  }

  /** The date of the last event stored in a group (`last().unwrap()`). */
  function LastDate(s: seq<PacmanEvent>): DateTimes.DateTime
    requires |s| > 0
  {
    s[|s| - 1].date
  }

  function RankOf(groups: Groups, p: string): Entry
    requires p in groups && |groups[p]| > 0
  {
    (p, LastDate(groups[p]))
  }

  /** Package `p` comes strictly before package `q` in the ranking. */
  predicate RankedBefore(groups: Groups, p: string, q: string)
    requires NonEmptyGroups(groups) && p in groups && q in groups
  {
    RankCmp(RankOf(groups, p), RankOf(groups, q)) == Less
  }

  function Min(a: nat, b: nat): nat {
    if a <= b then a else b
  }

  /** What `range` returns: some of the groups, unchanged; all of them without
    * a direction; otherwise as many as `n` allows, each ranked before
    * (forwards) or after (backwards) every package left out. */
  predicate IsWindow(grouped: Groups, direction: Option<Direction>, r: Groups)
    requires NonEmptyGroups(grouped)
  {
    r.Keys <= grouped.Keys &&
    (forall p :: p in r ==> r[p] == grouped[p]) &&
    match direction
    case None => r.Keys == grouped.Keys
    case Some(Forwards(n)) =>
      |r.Keys| == Min(n, |grouped.Keys|) &&
      forall p, q :: p in r && q in grouped && q !in r ==> RankedBefore(grouped, p, q)
    case Some(Backwards(n)) =>
      |r.Keys| == Min(n, |grouped.Keys|) &&
      forall p, q :: p in r && q in grouped && q !in r ==> RankedBefore(grouped, q, p)
  }

  // ---------------------------------------------------------------- sequences of names

  function Names(s: seq<Entry>): (r: seq<string>)
    ensures |r| == |s| && forall i :: 0 <= i < |s| ==> r[i] == s[i].0
  {
    seq(|s|, i requires 0 <= i < |s| => s[i].0)
  }

  predicate Distinct(s: seq<string>) {
    forall i, j :: 0 <= i < j < |s| ==> s[i] != s[j]
  }

  /** `take(n)`: the first `n` elements, or all of them when there are fewer. */
  function Take(s: seq<string>, n: nat): (r: seq<string>)
    ensures |r| == Min(n, |s|) && r == s[..|r|]
  {
    if n <= |s| then s[..n] else s
  }

  /** `rev()`. */
  function Reverse(s: seq<string>): (r: seq<string>)
    ensures |r| == |s| && forall i :: 0 <= i < |s| ==> r[i] == s[|s| - 1 - i]
  {
    seq(|s|, i requires 0 <= i < |s| => s[|s| - 1 - i])
  }

  /** A sequence without repetitions has as many elements as its set. */
  lemma {:induction false} DistinctCard(s: seq<string>)
    requires Distinct(s)
    ensures |set x | x in s| == |s|
  {
    if |s| > 0 {
      var init := s[..|s| - 1];
      DistinctCard(init);
      assert (set x | x in s) == (set x | x in init) + {s[|s| - 1]};
    }
  }

  /** The first `n` of the reversed names are the last `n` names, reversed. */
  lemma ReverseTake(names: seq<string>, n: nat)
    ensures Take(Reverse(names), n) == Reverse(names[|names| - Min(n, |names|)..|names|])
  {
    var m := |names|;
    var k := Min(n, m);
    var u := names[m - k..m];
    var ru := Reverse(u);
    var t := Take(Reverse(names), n);
    assert |u| == k;
    forall i | 0 <= i < k ensures t[i] == ru[i] {
      assert ru[i] == u[|u| - 1 - i];
      assert u[k - 1 - i] == names[m - 1 - i];
      assert t[i] == Reverse(names)[i];
    }
    assert t == ru;
  }

  /** A reversed sequence has the same elements. */
  lemma ReverseMembers(s: seq<string>)
    ensures forall x :: x in Reverse(s) <==> x in s
  {
    forall x | x in Reverse(s) ensures x in s {
      var i :| 0 <= i < |s| && Reverse(s)[i] == x;
      assert s[|s| - 1 - i] == x;
    }
    forall x | x in s ensures x in Reverse(s) {
      var j :| 0 <= j < |s| && s[j] == x;
      assert Reverse(s)[|s| - 1 - j] == x;
    }
  }

  /** The first `n` of the reversed names are exactly the last `n` names. */
  lemma ReverseTakeMembers(names: seq<string>, n: nat)
    ensures forall x :: x in Take(Reverse(names), n) <==> x in names[|names| - Min(n, |names|)..|names|]
  {
    ReverseTake(names, n);
    ReverseMembers(names[|names| - Min(n, |names|)..|names|]);
  }

  /** A slice of a sequence without repetitions has none either. */
  lemma DistinctSlice(s: seq<string>, lo: nat, hi: nat)
    requires Distinct(s) && lo <= hi <= |s|
    ensures Distinct(s[lo..hi])
  {
    forall i, j | 0 <= i < j < hi - lo ensures s[lo..hi][i] != s[lo..hi][j] {
      assert s[lo..hi][i] == s[lo + i] && s[lo..hi][j] == s[lo + j];
    }
  }

  /** Two equal elements at two positions count twice. */
  lemma TwoCopies(s: seq<Entry>, i: nat, j: nat)
    requires i < j < |s| && s[i] == s[j]
    ensures multiset(s)[s[i]] >= 2
  {
    assert s == s[..j] + [s[j]] + s[j + 1..];
    assert s[i] in s[..j];
  }

  // ---------------------------------------------------------------- the ranked entries

  /** One entry per package of the map, each with its ranking date, and no
    * entry twice. */
  ghost predicate RankedEntries(grouped: Groups, s: seq<Entry>)
    requires NonEmptyGroups(grouped)
  {
    |s| == |grouped.Keys| &&
    (forall i :: 0 <= i < |s| ==> s[i].0 in grouped && s[i] == RankOf(grouped, s[i].0)) &&
    (forall p :: p in grouped ==> p in Names(s)) &&
    (forall x :: multiset(s)[x] <= 1)
  }

  /** A package name appears at one position only. */
  lemma RankedDistinct(grouped: Groups, s: seq<Entry>)
    requires NonEmptyGroups(grouped) && RankedEntries(grouped, s)
    ensures Distinct(Names(s))
  {
    forall i, j | 0 <= i < j < |s| ensures Names(s)[i] != Names(s)[j] {
      if s[i].0 == s[j].0 {
        TwoCopies(s, i, j);
      }
    }
  }

  /** Sorting the entries keeps them the entries of the map. */
  lemma SortKeepsRanked(grouped: Groups, s: seq<Entry>)
    requires NonEmptyGroups(grouped) && RankedEntries(grouped, s)
    ensures RankedEntries(grouped, StableSort.Sort(RankCmp, s))
    ensures StableSort.Sorted(RankCmp, StableSort.Sort(RankCmp, s))
  {
    var t := StableSort.Sort(RankCmp, s);
    RankCmpTotalPreorder();
    StableSort.SortSorted(RankCmp, s);
    StableSort.SortPermutes(RankCmp, s);
    forall i | 0 <= i < |t| ensures t[i].0 in grouped && t[i] == RankOf(grouped, t[i].0) {
      assert t[i] in multiset(s);
      var j :| 0 <= j < |s| && s[j] == t[i];
    }
    forall p | p in grouped ensures p in Names(t) {
      var j :| 0 <= j < |s| && Names(s)[j] == p;
      assert s[j] in multiset(t);
      var i :| 0 <= i < |t| && t[i] == s[j];
      assert Names(t)[i] == p;
    }
  }

  /** Sorted entries of distinct packages are strictly ascending. */
  lemma StrictRanking(grouped: Groups, s: seq<Entry>)
    requires NonEmptyGroups(grouped) && RankedEntries(grouped, s) && StableSort.Sorted(RankCmp, s)
    ensures forall i, j :: 0 <= i < j < |s| ==> RankCmp(s[i], s[j]) == Less
  {
    RankedDistinct(grouped, s);
    forall i, j | 0 <= i < j < |s| ensures RankCmp(s[i], s[j]) == Less {
      assert Names(s)[i] != Names(s)[j];
      RankCmpEqual(s[i], s[j]);
    }
  }

  // ---------------------------------------------------------------- the loops

  /** `grouped.iter()` with each package's ranking date. */
  method RankEntries(grouped: Groups) returns (entries: seq<Entry>)
    requires NonEmptyGroups(grouped)
    ensures RankedEntries(grouped, entries)
  {
    entries := [];
    var rest := grouped.Keys;
    while rest != {}
      invariant rest <= grouped.Keys
      invariant |entries| + |rest| == |grouped.Keys|
      invariant forall i :: 0 <= i < |entries| ==>
        entries[i].0 in grouped && entries[i].0 !in rest && entries[i] == RankOf(grouped, entries[i].0)
      invariant forall p :: p in grouped && p !in rest ==> p in Names(entries)
      invariant forall x :: multiset(entries)[x] <= 1
      decreases rest
    {
      var p :| p in rest;
      var e := (p, LastDate(grouped[p]));
      assert e !in entries;
      ghost var old_entries := entries;
      entries := entries + [e];
      forall q | q in grouped && q !in rest - {p} ensures q in Names(entries) {
        if q != p {
          var i :| 0 <= i < |old_entries| && Names(old_entries)[i] == q;
          assert Names(entries)[i] == q;
        } else {
          assert Names(entries)[|entries| - 1] == q;
        }
      }
      rest := rest - {p};
    }
  }

  /** `sorted_by` on the entries: a stable sort of an array. */
  method SortEntries(entries: seq<Entry>) returns (sorted: seq<Entry>)
    ensures sorted == StableSort.Sort(RankCmp, entries)
  {
    var a := new Entry[|entries|](i requires 0 <= i < |entries| => entries[i]);
    assert a[..] == entries;
    StableSort.SortInPlace(RankCmp, a);
    sorted := a[..];
  }

  /** The `for_each` that copies the selected groups into a new map. */
  method Restrict(grouped: Groups, filters: seq<string>) returns (filtered: Groups)
    ensures forall p :: p in filtered <==> p in grouped && p in filters
    ensures forall p :: p in filtered ==> filtered[p] == grouped[p]
  {
    filtered := map[];
    var rest := grouped.Keys;
    while rest != {}
      invariant rest <= grouped.Keys
      invariant forall p :: p in filtered <==> p in grouped && p !in rest && p in filters
      invariant forall p :: p in filtered ==> filtered[p] == grouped[p]
      decreases rest
    {
      var p :| p in rest;
      if p in filters {
        filtered := filtered[p := grouped[p]];
      }
      rest := rest - {p};
    }
  }

  /** `range`. */
  method Range(grouped: Groups, direction: Option<Direction>) returns (filtered: Groups)
    requires NonEmptyGroups(grouped)
    ensures IsWindow(grouped, direction, filtered)
  {
    var entries := RankEntries(grouped);
    var sorted := SortEntries(entries);
    SortKeepsRanked(grouped, entries);
    var names := Names(sorted);
    var filters := match direction
      case Some(Forwards(n)) => Take(names, n)
      case Some(Backwards(n)) => Take(Reverse(names), n)
      case None => names;
    filtered := Restrict(grouped, filters);
    match direction {
      case None => AllWindow(grouped, sorted, filtered);
      case Some(Forwards(n)) => ForwardsWindow(grouped, sorted, n, filtered);
      case Some(Backwards(n)) => BackwardsWindow(grouped, sorted, n, filtered);
    }
  }

  // ---------------------------------------------------------------- the window

  lemma AllWindow(grouped: Groups, s: seq<Entry>, filtered: Groups)
    requires NonEmptyGroups(grouped) && RankedEntries(grouped, s)
    requires forall p :: p in filtered <==> p in grouped && p in Names(s)
    requires forall p :: p in filtered ==> filtered[p] == grouped[p]
    ensures IsWindow(grouped, None, filtered)
  {
  }

  /** Keys selected by a list of names that are all packages of the map. */
  lemma SelectedKeys(grouped: Groups, t: seq<string>, filtered: Groups)
    requires Distinct(t) && forall i :: 0 <= i < |t| ==> t[i] in grouped
    requires forall p :: p in filtered <==> p in grouped && p in t
    ensures |filtered.Keys| == |t|
  {
    assert filtered.Keys == set x | x in t;
    DistinctCard(t);
  }

  /** Selecting by either of two lists with the same elements selects the same keys. */
  lemma SameMembers(grouped: Groups, filtered: Groups, t1: seq<string>, t2: seq<string>)
    requires forall x :: x in t1 <==> x in t2
    requires forall p :: p in filtered <==> p in grouped && p in t1
    ensures forall p :: p in filtered <==> p in grouped && p in t2
  {
  }

  /** Selecting the slice `lo..hi` of the sorted names: every selected package
    * is ranked before every package after the slice and after every package
    * before it. */
  lemma SliceOrder(grouped: Groups, s: seq<Entry>, lo: nat, hi: nat, p: string, q: string)
    requires NonEmptyGroups(grouped) && RankedEntries(grouped, s) && StableSort.Sorted(RankCmp, s)
    requires lo <= hi <= |s| && p in Names(s)[lo..hi] && q in grouped && q !in Names(s)[lo..hi]
    ensures p in grouped && hi == |s| ==> RankedBefore(grouped, q, p)
    ensures p in grouped && lo == 0 ==> RankedBefore(grouped, p, q)
  {
    var names := Names(s);
    StrictRanking(grouped, s);
    var i :| lo <= i < hi && names[i] == p by {
      var i' :| 0 <= i' < hi - lo && names[lo..hi][i'] == p;
      assert names[lo + i'] == p;
    }
    var j :| 0 <= j < |names| && names[j] == q;
    assert forall x :: lo <= x < hi ==> names[lo..hi][x - lo] == names[x];
    if j < i {
      assert RankCmp(s[j], s[i]) == Less;
    } else if i < j {
      assert RankCmp(s[i], s[j]) == Less;
    }
  }

  /** Selecting by a list `t` of the packages of the slice `lo..hi` of the
    * sorted names keeps `hi - lo` of them; a prefix is the forwards window, a
    * suffix the backwards one. */
  lemma SliceWindow(grouped: Groups, s: seq<Entry>, lo: nat, hi: nat, t: seq<string>, n: nat, filtered: Groups)
    requires NonEmptyGroups(grouped) && RankedEntries(grouped, s) && StableSort.Sorted(RankCmp, s)
    requires lo <= hi <= |s| && hi - lo == Min(n, |s|)
    requires forall x :: x in t <==> x in Names(s)[lo..hi]
    requires forall p :: p in filtered <==> p in grouped && p in t
    requires forall p :: p in filtered ==> filtered[p] == grouped[p]
    ensures lo == 0 ==> IsWindow(grouped, Some(Forwards(n)), filtered)
    ensures hi == |s| ==> IsWindow(grouped, Some(Backwards(n)), filtered)
  {
    var names := Names(s);
    var u := names[lo..hi];
    RankedDistinct(grouped, s);
    DistinctSlice(names, lo, hi);
    forall i | 0 <= i < hi - lo ensures u[i] in grouped {
      assert u[i] == s[lo + i].0;
    }
    SameMembers(grouped, filtered, t, u);
    SelectedKeys(grouped, u, filtered);
    forall p, q | p in filtered && q in grouped && q !in filtered
      ensures lo == 0 ==> RankedBefore(grouped, p, q)
      ensures hi == |s| ==> RankedBefore(grouped, q, p)
    {
      SliceOrder(grouped, s, lo, hi, p, q);
    }
  }

  lemma ForwardsWindow(grouped: Groups, s: seq<Entry>, n: nat, filtered: Groups)
    requires NonEmptyGroups(grouped) && RankedEntries(grouped, s) && StableSort.Sorted(RankCmp, s)
    requires forall p :: p in filtered <==> p in grouped && p in Take(Names(s), n)
    requires forall p :: p in filtered ==> filtered[p] == grouped[p]
    ensures IsWindow(grouped, Some(Forwards(n)), filtered)
  {
    var names := Names(s);
    assert Take(names, n) == names[0..Min(n, |s|)];
    SliceWindow(grouped, s, 0, Min(n, |s|), Take(names, n), n, filtered);
  }

  lemma BackwardsWindow(grouped: Groups, s: seq<Entry>, n: nat, filtered: Groups)
    requires NonEmptyGroups(grouped) && RankedEntries(grouped, s) && StableSort.Sorted(RankCmp, s)
    requires forall p :: p in filtered <==> p in grouped && p in Take(Reverse(Names(s)), n)
    requires forall p :: p in filtered ==> filtered[p] == grouped[p]
    ensures IsWindow(grouped, Some(Backwards(n)), filtered)
  {
    var names := Names(s);
    ReverseTakeMembers(names, n);
    SliceWindow(grouped, s, |s| - Min(n, |s|), |s|, Take(Reverse(names), n), n, filtered);
  }

  // ---------------------------------------------------------------- properties

  /** Of two sets of one size, one holding an element the other lacks, the
    * other holds an element the first lacks. */
  lemma SameSizeOther(a: set<string>, b: set<string>, p: string) returns (q: string)
    requires |a| == |b| && p in a && p !in b
    ensures q in b && q !in a
  {
    assert a == (a - b) + (a * b) && b == (b - a) + (a * b);
    assert p in a - b;
    q :| q in b && q !in a;
  }

  /** No ties: a package is never ranked before a package ranked before it. */
  lemma RankedAntisymmetric(groups: Groups, p: string, q: string)
    requires NonEmptyGroups(groups) && p in groups && q in groups
    requires RankedBefore(groups, p, q)
    ensures !RankedBefore(groups, q, p)
  {
    RankCmpFlip(RankOf(groups, p), RankOf(groups, q));
  }

  /** The window is determined by the map and the direction alone: the order
    * in which the map is iterated does not matter. */
  lemma WindowDetermined(grouped: Groups, direction: Option<Direction>, r1: Groups, r2: Groups)
    requires NonEmptyGroups(grouped)
    requires IsWindow(grouped, direction, r1) && IsWindow(grouped, direction, r2)
    ensures r1 == r2
  {
    if direction.Some? {
      forall p | p in r1 ensures p in r2 {
        if p !in r2 {
          var q := SameSizeOther(r1.Keys, r2.Keys, p);
          if direction.value.Forwards? {
            RankedAntisymmetric(grouped, p, q);
          } else {
            RankedAntisymmetric(grouped, q, p);
          }
        }
      }
      assert r2.Keys == r1.Keys + (r2.Keys - r1.Keys);
    }
    SameMaps(r1, r2);
  }

  /** A window at least as large as the map is the whole map. */
  lemma WideWindowIsAll(grouped: Groups, direction: Direction, r: Groups)
    requires NonEmptyGroups(grouped) && direction.n >= |grouped.Keys|
    requires IsWindow(grouped, Some(direction), r)
    ensures r == grouped
  {
    var d := grouped.Keys - r.Keys;
    assert grouped.Keys == r.Keys + d;
    SameMaps(r, grouped);
  }
}
