// The state-filter and name-filter examples of filter.rs, on events built
// directly (their dates are any dates: the tests take the current time).
module FilterExamples {
  import opened Wrappers
  import opened DateTimes
  import opened Actions
  import opened PacmanEvents
  import opened Grouping
  import opened NewestEvents
  import opened Filtering

  /** One installed, one upgraded and one removed package. */
  function SomeEvents(d1: DateTime, d2: DateTime, d3: DateTime): (s: seq<PacmanEvent>)
    ensures |s| == 3
  {
    [PacmanEvent(d1, Installed, "some-package", "0.0.1", None),
     PacmanEvent(d2, Upgraded, "another-package", "0.0.1", Some("0.0.2")),
     PacmanEvent(d3, Removed, "no-longer-used", "0.0.1", None)]
  }

  /** The events of one package in a one-event log. */
  lemma EventsOfOne(x: PacmanEvent, p: string)
    ensures EventsOf([x], p) == if x.package == p then [x] else []
  {
    assert [x][..0] == [];
  }

  lemma ThreePackages(x: PacmanEvent, y: PacmanEvent, z: PacmanEvent)
    ensures Packages([x, y, z]) == {x.package, y.package, z.package}
  {
    var s := [x, y, z];
    assert s[0].package in Packages(s) && s[1].package in Packages(s) && s[2].package in Packages(s);
  }

  /** Without filters, events of pairwise different packages are groups of
    * one event each. */
  lemma {:induction false} DistinctSingletons(events: seq<PacmanEvent>)
    requires forall i, j :: 0 <= i < j < |events| ==> events[i].package != events[j].package
    ensures forall i :: 0 <= i < |events| ==>
      events[i].package in GroupsOf([], events) && GroupsOf([], events)[events[i].package] == [events[i]]
  {
    var n := |events|;
    if n > 0 {
      var init := events[..n - 1];
      var e := events[n - 1];
      DistinctSingletons(init);
      assert events == init + [e];
      GroupKeys([], init, e.package);
      GroupsSnocNew([], init, e);
      forall i | 0 <= i < n
        ensures events[i].package in GroupsOf([], events) && GroupsOf([], events)[events[i].package] == [events[i]]
      {
        if i < n - 1 {
          assert events[i] == init[i];
        }
      }
    }
  }

  /** Three events of different packages, without filters, are three groups
    * of one event. */
  lemma ThreeGroups(x: PacmanEvent, y: PacmanEvent, z: PacmanEvent)
    requires x.package != y.package && y.package != z.package && x.package != z.package
    ensures GroupsOf([], [x, y, z]).Keys == {x.package, y.package, z.package}
    ensures forall p :: p in GroupsOf([], [x, y, z]) ==> |GroupsOf([], [x, y, z])[p]| == 1
    ensures GroupsOf([], [x, y, z])[x.package] == [x]
    ensures GroupsOf([], [x, y, z])[y.package] == [y]
    ensures GroupsOf([], [x, y, z])[z.package] == [z]
  {
    var s := [x, y, z];
    DistinctSingletons(s);
    ThreePackages(x, y, z);
    assert GroupsOf([], s).Keys == {s[0].package, s[1].package, s[2].package};
  }

  /** The state filters on three packages of one event each: the removed one
    * is kept by `without_installed`, the other two by `without_removed`. */
  lemma ThreeFiltered(x: PacmanEvent, y: PacmanEvent, z: PacmanEvent)
    requires x.package != y.package && y.package != z.package && x.package != z.package
    requires !IsRemoved(x.action) && !IsRemoved(y.action) && IsRemoved(z.action)
    ensures Kept(GroupsOf([], [x, y, z]), true).Keys == {z.package}
    ensures Kept(GroupsOf([], [x, y, z]), false).Keys == {x.package, y.package}
  {
    ThreeGroups(x, y, z);
    ThreeKept(GroupsOf([], [x, y, z]), x, y, z, true);
    ThreeKept(GroupsOf([], [x, y, z]), x, y, z, false);
  }

  /** Which of three one-event groups a state filter keeps. */
  lemma ThreeKept(g: Groups, x: PacmanEvent, y: PacmanEvent, z: PacmanEvent, removed: bool)
    requires g.Keys == {x.package, y.package, z.package}
    requires forall p :: p in g ==> |g[p]| == 1
    requires g[x.package] == [x] && g[y.package] == [y] && g[z.package] == [z]
    requires !IsRemoved(x.action) && !IsRemoved(y.action) && IsRemoved(z.action)
    ensures removed ==> Kept(g, removed).Keys == {z.package}
    ensures !removed ==> Kept(g, removed).Keys == {x.package, y.package}
  {
    KeptSingletons(g, removed);
    var want := if removed then {z.package} else {x.package, y.package};
    forall p ensures p in Kept(g, removed) <==> p in want {
      if p == x.package { assert g[p][0] == x; }
      else if p == y.package { assert g[p][0] == y; }
      else if p == z.package { assert g[p][0] == z; }
    }
  }

  /** In a grouping of one event per package, a package is kept exactly when
    * its one event is (or is not) a removal. */
  lemma KeptSingletons(g: Groups, removed: bool)
    requires forall p :: p in g ==> |g[p]| == 1
    ensures forall p :: p in Kept(g, removed) <==> p in g && IsRemoved(g[p][0].action) == removed
  {
    forall p | p in g ensures NewestOf(g[p]) == g[p][0] {
      assert g[p] == [g[p][0]];
      NewestOfSingleton(g[p][0]);
    }
  }

  /** `without_installed` keeps only the removed package. */
  lemma ShouldRemoveInstalled(d1: DateTime, d2: DateTime, d3: DateTime)
    ensures Kept(GroupsOf([], SomeEvents(d1, d2, d3)), true).Keys == {"no-longer-used"}
  {
    var s := SomeEvents(d1, d2, d3);
    ThreeFiltered(s[0], s[1], s[2]);
    assert s == [s[0], s[1], s[2]];
  }

  /** `without_removed` keeps the other two. */
  lemma ShouldKeepInstalled(d1: DateTime, d2: DateTime, d3: DateTime)
    ensures Kept(GroupsOf([], SomeEvents(d1, d2, d3)), false).Keys == {"some-package", "another-package"}
  {
    var s := SomeEvents(d1, d2, d3);
    ThreeFiltered(s[0], s[1], s[2]);
    assert s == [s[0], s[1], s[2]];
  }

  /** Filters name whole packages: "linux" does not select "linux-firmware". */
  lemma WholeNamesOnly()
    ensures IsRelevantPackage([], "linux")
    ensures !IsRelevantPackage(["vim"], "linux")
    ensures !IsRelevantPackage(["bash", "linux"], "linux-firmware")
  {
    assert "linux-firmware" != "bash" && "linux-firmware" != "linux";
  }

  /** The log of the name-filter tests: linux, linux-firmware and bash, none
    * of them removed. With the default state filter (`without_removed`) all
    * three are reported, and the filter list bash, linux reports those two. */
  lemma NamedPackagesFiltered(events: seq<PacmanEvent>)
    requires Packages(events) == {"linux", "linux-firmware", "bash"}
    requires forall i :: 0 <= i < |events| ==> !IsRemoved(events[i].action)
    ensures Kept(GroupsOf([], events), false).Keys == {"linux", "linux-firmware", "bash"}
    ensures Kept(GroupsOf(["bash", "linux"], events), false).Keys == {"bash", "linux"}
  {
    KeptWithoutRemovals([], events);
    KeptWithoutRemovals(["bash", "linux"], events);
    WholeNamesOnly();
    assert GroupsOf([], events).Keys == Packages(events);
    assert GroupsOf(["bash", "linux"], events).Keys == {"bash", "linux"};
  }
}
