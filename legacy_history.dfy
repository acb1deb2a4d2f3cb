// The ordering steps of `run` in src/pkghist.rs: the groups are visited in the
// order the hash map yields them, each group's events are sorted in place and
// made into a history, and the histories are then stably sorted by package
// name. The visiting order is a choice the model leaves open; with one group
// per package the result does not depend on it.
module LegacyHistory {
  import opened Orderings
  import opened PacmanEvents
  import opened Grouping
  import opened History
  import StableSort

  /** The comparison of `sort_by(|h1, h2| h1.p.cmp(&h2.p))`. */
  function ByName(a: PackageHistory, b: PackageHistory): Ordering {
    CompareStrings(a.p, b.p)
  }

  lemma ByNameTotalPreorder()
    ensures StableSort.TotalPreorder(ByName)
  {
    forall a: PackageHistory, b: PackageHistory ensures ByName(b, a) == Flip(ByName(a, b)) {
      CompareStringsFlip(a.p, b.p);
    }
    forall a: PackageHistory, b: PackageHistory, c: PackageHistory | ByName(a, b) != Greater && ByName(b, c) != Greater
      ensures ByName(a, c) != Greater
    {
      CompareStringsEqual(a.p, b.p);
      CompareStringsEqual(b.p, c.p);
      if ByName(a, b) == Less && ByName(b, c) == Less {
        CompareStringsTransitive(a.p, b.p, c.p);
      }
    }
  }

  /** The names of a map's keys, each once, in some order. */
  ghost predicate Enumerates(groups: Groups, order: seq<string>) {
    |order| == |groups.Keys| &&
    (forall p :: p in groups <==> p in order) &&
    (forall i, j :: 0 <= i < j < |order| ==> order[i] != order[j])
  }

  lemma EnumeratesVisits(groups: Groups, order: seq<string>)
    requires Enumerates(groups, order)
    ensures Visits(groups, order)
  {
    forall k | 0 <= k < |order| ensures order[k] in groups {
      assert order[k] in order;
    }
  }

  /** The names bookkeeping of the loop: the visited names, each once, and
    * the rest still to visit, together the keys. */
  ghost predicate Visiting(groups: Groups, names: seq<string>, rest: set<string>) {
    rest <= groups.Keys &&
    |names| + |rest| == |groups.Keys| &&
    (forall k :: 0 <= k < |names| ==> names[k] in groups && names[k] !in rest) &&
    (forall p :: p in groups <==> p in names || p in rest) &&
    (forall i, j :: 0 <= i < j < |names| ==> names[i] != names[j])
  }

  /** Visiting one more name keeps the bookkeeping. */
  lemma VisitStep(groups: Groups, names: seq<string>, rest: set<string>, p: string)
    requires Visiting(groups, names, rest) && p in rest
    ensures Visiting(groups, names + [p], rest - {p})
  {
    var n := names + [p];
    forall k | 0 <= k < |n| ensures n[k] in groups && n[k] !in rest - {p} {
      if k < |names| {
        assert n[k] == names[k];
      }
    }
    forall i, j | 0 <= i < j < |n| ensures n[i] != n[j] {
      assert n[i] == names[i];
      if j < |names| {
        assert n[j] == names[j];
      }
    }
  }

  /** The loop of `run`: visit the groups in some order, sort each group's
    * events in place and push its history. `names` is the visiting order. */
  method VisitGroups(groups: Groups) returns (visited: seq<PackageHistory>, names: seq<string>)
    requires WellFormed(groups)
    ensures Enumerates(groups, names)
    ensures visited == InOrder(groups, names)
  {
    visited := [];
    names := [];
    var rest := groups.Keys;
    while rest != {}
      invariant Visiting(groups, names, rest)
      invariant visited == InOrder(groups, names)
      decreases rest
    {
      var p :| p in rest;
      var a := NewestEvents.ToArray(groups[p]);
      StableSort.SortInPlace(Cmp, a);
      GroupHistory(groups, p);
      var h := FromPacmanEvents(a[..]);
      InOrderSnoc(groups, names, p);
      VisitStep(groups, names, rest, p);
      visited := visited + [h];
      names := names + [p];
      rest := rest - {p};
    }
  }

  /** `sort_by` on the histories: the stable in-place sort by name. */
  method SortByName(visited: seq<PackageHistory>) returns (sorted: seq<PackageHistory>)
    ensures sorted == StableSort.Sort(ByName, visited)
  {
    var b := new PackageHistory[|visited|](i requires 0 <= i < |visited| => visited[i]);
    assert b[..] == visited;
    StableSort.SortInPlace(ByName, b);
    sorted := b[..];
  }

  /** Lines 22-33 of `run`: visit the groups, then sort the histories by name.
    * `order` is the visiting order. */
  method LegacyRun(groups: Groups) returns (histories: seq<PackageHistory>, ghost order: seq<string>)
    requires WellFormed(groups)
    ensures Enumerates(groups, order)
    ensures histories == StableSort.Sort(ByName, InOrder(groups, order))
  {
    var visited, names := VisitGroups(groups);
    order := names;
    histories := SortByName(visited);
  }

  // ---------------------------------------------------------------- properties

  /** Two equal elements at two positions count twice. */
  lemma TwoCopies(s: seq<PackageHistory>, i: nat, j: nat)
    requires i < j < |s| && s[i] == s[j]
    ensures multiset(s)[s[i]] >= 2
  {
    assert s == s[..j] + [s[j]] + s[j + 1..];
    assert s[i] in s[..j];
  }

  /** An element that occurs twice in a sequence occurs at two positions. */
  lemma TwoPositions(s: seq<PackageHistory>, x: PackageHistory) returns (i: nat, j: nat)
    requires multiset(s)[x] >= 2
    ensures i < j < |s| && s[i] == x && s[j] == x
  {
    assert x in multiset(s);
    var k :| 0 <= k < |s| && s[k] == x;
    var rest := s[..k] + s[k + 1..];
    assert s == s[..k] + [x] + s[k + 1..];
    assert multiset(rest)[x] >= 1;
    assert x in multiset(rest);
    var m :| 0 <= m < |rest| && rest[m] == x;
    if m < k {
      i, j := m, k;
    } else {
      i, j := k, m + 1;
    }
  }

  /** The histories of the groups, visited once each, carry the visiting order
    * as their names. */
  lemma InOrderNames(groups: Groups, order: seq<string>)
    requires WellFormed(groups) && Visits(groups, order)
    ensures NamesOf(InOrder(groups, order)) == order
  {
    var s := InOrder(groups, order);
    forall k | 0 <= k < |order| ensures s[k].p == order[k] {
      InOrderAt(groups, order, k);
    }
  }

  /** A sequence of histories of distinct names holds each history at most
    * once. */
  lemma AtMostOnce(s: seq<PackageHistory>, x: PackageHistory)
    requires forall i, j :: 0 <= i < j < |s| ==> s[i].p != s[j].p
    ensures multiset(s)[x] < 2
  {
    if multiset(s)[x] >= 2 {
      var i, j := TwoPositions(s, x);
    }
  }

  /** Two positions of a permutation of histories of distinct names hold
    * distinct names. */
  lemma PermutedNamesDistinct(s: seq<PackageHistory>, t: seq<PackageHistory>, i: nat, j: nat)
    requires forall a, b :: 0 <= a < b < |s| ==> s[a].p != s[b].p
    requires multiset(t) == multiset(s) && i < j < |t|
    ensures t[i].p != t[j].p
  {
    AtMostOnce(s, t[i]);
    if t[i] == t[j] {
      TwoCopies(t, i, j);
    } else {
      assert t[i] in multiset(s) && t[j] in multiset(s);
      var a :| 0 <= a < |s| && s[a] == t[i];
      var b :| 0 <= b < |s| && s[b] == t[j];
      assert a < b || b < a;
    }
  }

  /** Sorting histories of distinct names by name makes the names strictly
    * ascending and keeps the histories. */
  lemma SortByNameAscending(s: seq<PackageHistory>)
    requires forall i, j :: 0 <= i < j < |s| ==> s[i].p != s[j].p
    ensures Ascending(NamesOf(StableSort.Sort(ByName, s)))
    ensures forall h :: h in StableSort.Sort(ByName, s) <==> h in s
  {
    var t := StableSort.Sort(ByName, s);
    ByNameTotalPreorder();
    StableSort.SortSorted(ByName, s);
    StableSort.SortPermutes(ByName, s);
    forall h ensures h in t <==> h in s {
      assert h in t <==> h in multiset(t);
      assert h in s <==> h in multiset(s);
    }
    forall i, j | 0 <= i < j < |t| ensures StringLess(t[i].p, t[j].p) {
      assert StableSort.Le(ByName, t[i], t[j]);
      PermutedNamesDistinct(s, t, i, j);
      CompareStringsEqual(t[i].p, t[j].p);
    }
  }

  /** Every history in visiting order is the history of the group it is
    * named after. */
  lemma InOrderMember(groups: Groups, order: seq<string>, h: PackageHistory)
    requires WellFormed(groups) && Visits(groups, order)
    requires h in InOrder(groups, order)
    ensures h.p in groups && h == HistoryOf(groups[h.p])
  {
    var s := InOrder(groups, order);
    var k :| 0 <= k < |s| && s[k] == h;
    InOrderAt(groups, order, k);
  }

  /** The sorted histories in visiting order have strictly ascending names and
    * are the same histories. */
  lemma LegacyNames(groups: Groups, order: seq<string>)
    requires WellFormed(groups) && Enumerates(groups, order)
    ensures |StableSort.Sort(ByName, InOrder(groups, order))| == |groups.Keys|
    ensures Ascending(NamesOf(StableSort.Sort(ByName, InOrder(groups, order))))
    ensures forall h :: h in StableSort.Sort(ByName, InOrder(groups, order)) <==> h in InOrder(groups, order)
  {
    var s := InOrder(groups, order);
    EnumeratesVisits(groups, order);
    InOrderNames(groups, order);
    assert forall i, j :: 0 <= i < j < |s| ==> NamesOf(s)[i] != NamesOf(s)[j];
    SortByNameAscending(s);
  }

  /** The result of `run`: one history per group, each the history of the
    * group it is named after, the names strictly ascending. */
  lemma LegacyOrder(groups: Groups, order: seq<string>, histories: seq<PackageHistory>)
    requires WellFormed(groups) && Enumerates(groups, order)
    requires histories == StableSort.Sort(ByName, InOrder(groups, order))
    ensures |histories| == |groups.Keys|
    ensures forall i :: 0 <= i < |histories| ==>
      histories[i].p in groups && histories[i] == HistoryOf(groups[histories[i].p])
    ensures forall p :: p in groups ==> exists i :: 0 <= i < |histories| && histories[i].p == p
    ensures Ascending(NamesOf(histories))
  {
    LegacyNames(groups, order);
    LegacyEach(groups, order, histories);
    LegacyCover(groups, order, histories);
  }

  lemma LegacyEach(groups: Groups, order: seq<string>, histories: seq<PackageHistory>)
    requires WellFormed(groups) && Enumerates(groups, order)
    requires histories == StableSort.Sort(ByName, InOrder(groups, order))
    ensures forall i :: 0 <= i < |histories| ==>
      histories[i].p in groups && histories[i] == HistoryOf(groups[histories[i].p])
  {
    LegacyNames(groups, order);
    EnumeratesVisits(groups, order);
    forall i | 0 <= i < |histories|
      ensures histories[i].p in groups && histories[i] == HistoryOf(groups[histories[i].p])
    {
      assert histories[i] in histories;
      InOrderMember(groups, order, histories[i]);
    }
  }

  lemma LegacyCover(groups: Groups, order: seq<string>, histories: seq<PackageHistory>)
    requires WellFormed(groups) && Enumerates(groups, order)
    requires histories == StableSort.Sort(ByName, InOrder(groups, order))
    ensures forall p :: p in groups ==> exists i :: 0 <= i < |histories| && histories[i].p == p
  {
    LegacyNames(groups, order);
    EnumeratesVisits(groups, order);
    var s := InOrder(groups, order);
    forall p | p in groups ensures exists i :: 0 <= i < |histories| && histories[i].p == p {
      var k :| 0 <= k < |order| && order[k] == p;
      InOrderAt(groups, order, k);
      assert s[k] in s;
      var i :| 0 <= i < |histories| && histories[i] == s[k];
    }
  }

  predicate Ascending(s: seq<string>) {
    forall i, j :: 0 <= i < j < |s| ==> StringLess(s[i], s[j])
  }

  /** Two strictly ascending sequences of the same names are the same. */
  lemma {:induction false} AscendingUnique(a: seq<string>, b: seq<string>)
    requires Ascending(a) && Ascending(b) && |a| == |b|
    requires forall x :: x in a <==> x in b
    ensures a == b
    decreases |a|
  {
    if |a| > 0 {
      assert a[0] in b && b[0] in a;
      var i :| 0 <= i < |b| && b[i] == a[0];
      var j :| 0 <= j < |a| && a[j] == b[0];
      CompareStringsFlip(a[0], b[0]);
      assert i == 0 || j == 0;
      forall k | 0 < k < |a| ensures a[k] != a[0] && b[k] != b[0] {
        CompareStringsEqual(a[0], a[k]);
        CompareStringsEqual(b[0], b[k]);
      }
      assert a[0] == b[0];
      forall x ensures x in a[1..] <==> x in b[1..] {
        if x in a[1..] {
          var k :| 0 <= k < |a[1..]| && a[1..][k] == x;
          assert a[k + 1] == x && x in b;
          var m :| 0 <= m < |b| && b[m] == x;
          assert b[1..][m - 1] == x;
        }
        if x in b[1..] {
          var k :| 0 <= k < |b[1..]| && b[1..][k] == x;
          assert b[k + 1] == x && x in a;
          var m :| 0 <= m < |a| && a[m] == x;
          assert a[1..][m - 1] == x;
        }
      }
      AscendingUnique(a[1..], b[1..]);
      assert a == [a[0]] + a[1..] && b == [b[0]] + b[1..];
    }
  }

  /** The names of a sequence of histories. */
  function NamesOf(h: seq<PackageHistory>): (r: seq<string>)
    ensures |r| == |h| && forall i :: 0 <= i < |h| ==> r[i] == h[i].p
  {
    seq(|h|, i requires 0 <= i < |h| => h[i].p)
  }

  /** The names of histories with one per group are the keys. */
  lemma NamesAreKeys(groups: Groups, h: seq<PackageHistory>)
    requires forall i :: 0 <= i < |h| ==> h[i].p in groups
    requires forall p :: p in groups ==> exists i :: 0 <= i < |h| && h[i].p == p
    ensures forall x :: x in NamesOf(h) <==> x in groups
  {
    forall x | x in groups ensures x in NamesOf(h) {
      var i :| 0 <= i < |h| && h[i].p == x;
      assert NamesOf(h)[i] == x;
    }
  }

  /** Two visiting orders give the same result. */
  lemma LegacyRunDeterministic(groups: Groups, o1: seq<string>, o2: seq<string>)
    requires WellFormed(groups) && Enumerates(groups, o1) && Enumerates(groups, o2)
    ensures StableSort.Sort(ByName, InOrder(groups, o1)) == StableSort.Sort(ByName, InOrder(groups, o2))
  {
    var h1 := StableSort.Sort(ByName, InOrder(groups, o1));
    var h2 := StableSort.Sort(ByName, InOrder(groups, o2));
    LegacyKeys(groups, o1);
    LegacyKeys(groups, o2);
    LegacyNames(groups, o1);
    LegacyNames(groups, o2);
    AscendingUnique(NamesOf(h1), NamesOf(h2));
    LegacyOrder(groups, o1, h1);
    LegacyOrder(groups, o2, h2);
    SameNamesSame(groups, h1, h2);
  }

  /** The names of the result of `run` are the keys. */
  lemma LegacyKeys(groups: Groups, order: seq<string>)
    requires WellFormed(groups) && Enumerates(groups, order)
    ensures forall x :: x in NamesOf(StableSort.Sort(ByName, InOrder(groups, order))) <==> x in groups
  {
    var h := StableSort.Sort(ByName, InOrder(groups, order));
    LegacyOrder(groups, order, h);
    NamesAreKeys(groups, h);
  }

  /** Histories that are each their group's history and carry the same names
    * are the same. */
  lemma SameNamesSame(groups: Groups, h1: seq<PackageHistory>, h2: seq<PackageHistory>)
    requires WellFormed(groups)
    requires forall i :: 0 <= i < |h1| ==> h1[i].p in groups && h1[i] == HistoryOf(groups[h1[i].p])
    requires forall i :: 0 <= i < |h2| ==> h2[i].p in groups && h2[i] == HistoryOf(groups[h2[i].p])
    requires NamesOf(h1) == NamesOf(h2)
    ensures h1 == h2
  {
    forall i | 0 <= i < |h1| ensures h1[i] == h2[i] {
      assert NamesOf(h1)[i] == NamesOf(h2)[i];
    }
  }
}
