// The example of range.rs: six events of three packages, the window of the
// last two. The example's dates are successive readings of the clock, so the
// one event of "some-package" is taken to be strictly older than the last
// events of the other two.
module RangeExamples {
  import opened Wrappers
  import opened Orderings
  import DateTimes
  import opened Actions
  import opened PacmanEvents
  import opened Grouping
  import opened Options
  import opened Windowing

  /** A package ranked before every other is left out of a backwards window
    * that leaves anything out. */
  lemma OldestLeftOut(g: Groups, n: nat, r: Groups, x: string)
    requires NonEmptyGroups(g) && IsWindow(g, Some(Backwards(n)), r)
    requires |r.Keys| < |g.Keys| && x in g
    requires forall q :: q in g && q != x ==> RankedBefore(g, x, q)
    ensures x !in r
  {
    if x in r {
      var d := g.Keys - r.Keys;
      assert g.Keys == r.Keys + d;
      var q :| q in d;
      RankedAntisymmetric(g, x, q);
    }
  }

  /** A subset as large as its superset is the superset. */
  lemma SubsetOfSameSize(a: set<string>, b: set<string>)
    requires a <= b && |a| == |b|
    ensures a == b
  {
    assert b == a + (b - a);
  }

  /** Three packages, one ranked before the other two: the last two are those. */
  lemma LastTwoOfThree(g: Groups, x: string, y: string, z: string, r: Groups)
    requires NonEmptyGroups(g) && g.Keys == {x, y, z} && x != y && y != z && x != z
    requires RankedBefore(g, x, y) && RankedBefore(g, x, z)
    requires IsWindow(g, Some(Backwards(2)), r)
    ensures r.Keys == {y, z}
  {
    assert |g.Keys| == 3;
    OldestLeftOut(g, 2, r, x);
    SubsetOfSameSize(r.Keys, {y, z});
  }

  /** The events of `some_pacman_events`, with their dates as parameters. */
  function SomeEvents(d: seq<DateTimes.DateTime>): (s: seq<PacmanEvent>)
    requires |d| == 6
    ensures |s| == 6
  {
    [PacmanEvent(d[0], Installed, "some-package", "0.0.1", None),
     PacmanEvent(d[1], Installed, "another-package", "0.0.2", None),
     PacmanEvent(d[2], Upgraded, "another-package", "0.0.2", Some("0.0.3")),
     PacmanEvent(d[3], Removed, "another-package", "0.0.2", None),
     PacmanEvent(d[4], Installed, "another-package", "0.0.2", None),
     PacmanEvent(d[5], Removed, "no-longer-used", "0.0.1", None)]
  }

  /** The events of one package in a log of one event, a block of events and
    * one more event. */
  lemma EventsOfThree(a: PacmanEvent, ys: seq<PacmanEvent>, c: PacmanEvent, p: string)
    ensures EventsOf([a] + ys + [c], p) ==
      (if a.package == p then [a] else []) + EventsOf(ys, p) + (if c.package == p then [c] else [])
  {
    EventsOfAppend([a] + ys, [c], p);
    EventsOfAppend([a], ys, p);
    OneEvent(a, p);
    OneEvent(c, p);
  }

  /** The packages of such a log. */
  lemma PackagesOfThree(a: PacmanEvent, ys: seq<PacmanEvent>, c: PacmanEvent)
    requires |ys| > 0 && forall i :: 0 <= i < |ys| ==> ys[i].package == ys[0].package
    ensures Packages([a] + ys + [c]) == {a.package, ys[0].package, c.package}
  {
    var s := [a] + ys + [c];
    var y := ys[0].package;
    forall p | p in Packages(s) ensures p == a.package || p == y || p == c.package {
      var i :| 0 <= i < |s| && s[i].package == p;
      if 0 < i < |s| - 1 {
        assert s[i] == ys[i - 1];
      }
    }
    assert s[0].package == a.package && s[1].package == y && s[|s| - 1].package == c.package;
  }

  /** Grouping one event of a package, the events `ys` of a second and one
    * event of a third. */
  lemma GroupThree(a: PacmanEvent, ys: seq<PacmanEvent>, c: PacmanEvent)
    requires |ys| > 0 && forall i :: 0 <= i < |ys| ==> ys[i].package == ys[0].package
    requires a.package != ys[0].package && ys[0].package != c.package && a.package != c.package
    ensures GroupsOf([], [a] + ys + [c]).Keys == {a.package, ys[0].package, c.package}
    ensures GroupsOf([], [a] + ys + [c])[a.package] == [a]
    ensures GroupsOf([], [a] + ys + [c])[ys[0].package] == ys
    ensures GroupsOf([], [a] + ys + [c])[c.package] == [c]
  {
    var y := ys[0].package;
    PackagesOfThree(a, ys, c);
    assert a.package !in Packages(ys) && c.package !in Packages(ys);
    EventsOfThree(a, ys, c, a.package);
    EventsOfThree(a, ys, c, y);
    EventsOfThree(a, ys, c, c.package);
    EventsOfSinglePackage(ys, y);
    EventsOfAbsent(ys, a.package);
    EventsOfAbsent(ys, c.package);
  }

  lemma OneEvent(x: PacmanEvent, p: string)
    ensures EventsOf([x], p) == if x.package == p then [x] else []
  {
    assert [x][..0] == [];
  }

  /** `should_get_last_n_packages`: the window of the last two packages holds
    * "another-package" and "no-longer-used". */
  lemma ShouldGetLastNPackages(d: seq<DateTimes.DateTime>, r: Groups)
    requires |d| == 6
    requires DateTimes.Compare(d[0], d[4]) == Less && DateTimes.Compare(d[0], d[5]) == Less
    requires NonEmptyGroups(GroupsOf([], SomeEvents(d)))
    requires IsWindow(GroupsOf([], SomeEvents(d)), Some(Backwards(2)), r)
    ensures |r.Keys| == 2
    ensures r.Keys == {"another-package", "no-longer-used"}
  {
    var s := SomeEvents(d);
    var ys := s[1..5];
    assert s == [s[0]] + ys + [s[5]];
    GroupThree(s[0], ys, s[5]);
    var g := GroupsOf([], s);
    assert LastDate(g["some-package"]) == d[0];
    assert LastDate(g["another-package"]) == d[4];
    assert LastDate(g["no-longer-used"]) == d[5];
    LastTwoOfThree(g, "some-package", "another-package", "no-longer-used", r);
  }
}
