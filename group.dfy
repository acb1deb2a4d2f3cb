// `group_relevant`: partition the events of the log by package name, keeping
// only the packages the filter list selects. `Groups` is the map it builds,
// as a function of the filter list and the events; `GroupRelevant` is the
// loop that builds it one event at a time.
module Grouping {
  import opened PacmanEvents

  type Groups = map<string, seq<PacmanEvent>>

  /** `is_relevant_package` (the relevance test the configuration applies):
    * every package when there are no filters, otherwise the packages named
    * exactly by one of them. */
  predicate IsRelevantPackage(filters: seq<string>, package: string): (b: bool)
    ensures b <==> |filters| == 0 || exists i :: 0 <= i < |filters| && filters[i] == package
  {
    |filters| == 0 || package in filters
  }

  /** The events of one package, in log order. */
  function EventsOf(events: seq<PacmanEvent>, p: string): (r: seq<PacmanEvent>)
    ensures |r| <= |events|
    ensures forall i :: 0 <= i < |r| ==> r[i].package == p
  {
    if |events| == 0 then []
    else
      var init := EventsOf(events[..|events| - 1], p);
      if events[|events| - 1].package == p then init + [events[|events| - 1]] else init
  }

  function Packages(events: seq<PacmanEvent>): set<string> {
    set i | 0 <= i < |events| :: events[i].package
  }

  /** The map `group_relevant` returns. */
  function GroupsOf(filters: seq<string>, events: seq<PacmanEvent>): Groups {
    map p | p in Packages(events) && IsRelevantPackage(filters, p) :: EventsOf(events, p)
  }

  /** The events the filter list selects, in log order. */
  function Relevant(filters: seq<string>, events: seq<PacmanEvent>): (r: seq<PacmanEvent>)
    ensures |r| <= |events|
  {
    if |events| == 0 then []
    else
      var init := Relevant(filters, events[..|events| - 1]);
      if IsRelevantPackage(filters, events[|events| - 1].package) then init + [events[|events| - 1]] else init
  }

  /** The loop of `group_relevant`: a relevant event is appended to the vector
    * of its package, which is created on its first event. */
  method GroupRelevant(filters: seq<string>, events: seq<PacmanEvent>) returns (groups: Groups)
    ensures groups == GroupsOf(filters, events)
  {
    groups := map[];
    var i := 0;
    assert events[..0] == [];
    assert GroupsOf(filters, []) == map[];
    while i < |events|
      invariant 0 <= i <= |events|
      invariant groups == GroupsOf(filters, events[..i])
    {
      var e := events[i];
      assert events[..i + 1] == events[..i] + [e];
      if IsRelevantPackage(filters, e.package) {
        if e.package in groups {
          GroupsSnocAppend(filters, events[..i], e);
          groups := groups[e.package := groups[e.package] + [e]];
        } else {
          GroupsSnocNew(filters, events[..i], e);
          groups := groups[e.package := [e]];
        }
      } else {
        GroupsSnocIrrelevant(filters, events[..i], e);
      }
      i := i + 1;
    }
    assert events[..i] == events;
  }

  lemma EventsOfSnoc(s: seq<PacmanEvent>, e: PacmanEvent, p: string)
    ensures EventsOf(s + [e], p) == if e.package == p then EventsOf(s, p) + [e] else EventsOf(s, p)
  {
    assert (s + [e])[..|s|] == s;
  }

  lemma {:induction false} EventsOfAbsent(s: seq<PacmanEvent>, p: string)
    requires p !in Packages(s)
    ensures EventsOf(s, p) == []
  {
    if |s| > 0 {
      var init := s[..|s| - 1];
      assert Packages(init) <= Packages(s) by {
        forall q | q in Packages(init) ensures q in Packages(s) {
          var i :| 0 <= i < |init| && init[i].package == q;
          assert s[i] == init[i];
        }
      }
      EventsOfAbsent(init, p);
      assert s[|s| - 1].package in Packages(s);
    }
  }

  lemma PackagesSnoc(s: seq<PacmanEvent>, e: PacmanEvent)
    ensures Packages(s + [e]) == Packages(s) + {e.package}
  {
    var t := s + [e];
    forall q | q in Packages(t) ensures q in Packages(s) + {e.package} {
      var i :| 0 <= i < |t| && t[i].package == q;
      if i < |s| { assert t[i] == s[i]; }
    }
    forall q | q in Packages(s) ensures q in Packages(t) {
      var i :| 0 <= i < |s| && s[i].package == q;
      assert t[i] == s[i];
    }
    assert t[|s|] == e;
  }

  /** One more event leaves the groups of the other packages as they were. */
  lemma GroupsSnocElsewhere(filters: seq<string>, s: seq<PacmanEvent>, e: PacmanEvent)
    ensures forall q :: q != e.package ==> (q in GroupsOf(filters, s + [e]) <==> q in GroupsOf(filters, s))
    ensures forall q :: q != e.package && q in GroupsOf(filters, s) ==> GroupsOf(filters, s + [e])[q] == GroupsOf(filters, s)[q]
  {
    PackagesSnoc(s, e);
    forall q | q != e.package && q in GroupsOf(filters, s)
      ensures GroupsOf(filters, s + [e])[q] == GroupsOf(filters, s)[q]
    {
      EventsOfSnoc(s, e, q);
    }
  }

  /** An event of an irrelevant package changes nothing. */
  lemma GroupsSnocIrrelevant(filters: seq<string>, s: seq<PacmanEvent>, e: PacmanEvent)
    requires !IsRelevantPackage(filters, e.package)
    ensures GroupsOf(filters, s + [e]) == GroupsOf(filters, s)
  {
    GroupsSnocElsewhere(filters, s, e);
  }

  /** A further event of a grouped package is appended to its group. */
  lemma GroupsSnocAppend(filters: seq<string>, s: seq<PacmanEvent>, e: PacmanEvent)
    requires e.package in GroupsOf(filters, s)
    ensures GroupsOf(filters, s + [e]) == GroupsOf(filters, s)[e.package := GroupsOf(filters, s)[e.package] + [e]]
  {
    GroupsSnocElsewhere(filters, s, e);
    PackagesSnoc(s, e);
    EventsOfSnoc(s, e, e.package);
  }

  /** The first event of a relevant package starts its group. */
  lemma GroupsSnocNew(filters: seq<string>, s: seq<PacmanEvent>, e: PacmanEvent)
    requires IsRelevantPackage(filters, e.package) && e.package !in GroupsOf(filters, s)
    ensures GroupsOf(filters, s + [e]) == GroupsOf(filters, s)[e.package := [e]]
  {
    var p := e.package;
    var g, g' := GroupsOf(filters, s), GroupsOf(filters, s + [e]);
    var h := g[p := [e]];
    assert p !in Packages(s);
    EventsOfSnoc(s, e, p);
    EventsOfAbsent(s, p);
    PackagesSnoc(s, e);
    assert p in g' && g'[p] == [e];
    GroupsSnocElsewhere(filters, s, e);
    assert g'.Keys == h.Keys;
    SameMaps(g', h);
  }

  lemma SameMaps(a: Groups, b: Groups)
    requires a.Keys == b.Keys && forall k :: k in a ==> a[k] == b[k]
    ensures a == b
  {
  }

  // ---------------------------------------------------------------- properties of the map

  /** The keys are exactly the relevant packages that occur in the log. */
  lemma GroupKeys(filters: seq<string>, events: seq<PacmanEvent>, p: string)
    ensures p in GroupsOf(filters, events) <==>
      IsRelevantPackage(filters, p) && exists i :: 0 <= i < |events| && events[i].package == p
  {
  }

  /** An event belongs to the events of a package exactly when it is in the
    * log and has that package's name. */
  lemma {:induction false} EventsOfMembers(events: seq<PacmanEvent>, p: string, e: PacmanEvent)
    ensures e in EventsOf(events, p) <==> e in events && e.package == p
  {
    if |events| > 0 {
      var init := events[..|events| - 1];
      EventsOfMembers(init, p, e);
      assert events == init + [events[|events| - 1]];
    }
  }

  /** A group is non-empty and holds only events of its package, which is a
    * relevant one. */
  lemma GroupContents(filters: seq<string>, events: seq<PacmanEvent>, p: string)
    requires p in GroupsOf(filters, events)
    ensures |GroupsOf(filters, events)[p]| > 0
    ensures IsRelevantPackage(filters, p)
    ensures forall e :: e in GroupsOf(filters, events)[p] ==> e.package == p && e in events
  {
    var i :| 0 <= i < |events| && events[i].package == p;
    EventsOfMembers(events, p, events[i]);
    forall e | e in GroupsOf(filters, events)[p] ensures e.package == p && e in events {
      EventsOfMembers(events, p, e);
    }
  }

  /** Every event of a relevant package is in the group of its package. */
  lemma EventGrouped(filters: seq<string>, events: seq<PacmanEvent>, i: nat)
    requires i < |events| && IsRelevantPackage(filters, events[i].package)
    ensures events[i].package in GroupsOf(filters, events)
    ensures events[i] in GroupsOf(filters, events)[events[i].package]
  {
    EventsOfMembers(events, events[i].package, events[i]);
  }

  /** The events of an irrelevant package appear in no group. */
  lemma IrrelevantDropped(filters: seq<string>, events: seq<PacmanEvent>, e: PacmanEvent)
    requires !IsRelevantPackage(filters, e.package)
    ensures forall p :: p in GroupsOf(filters, events) ==> e !in GroupsOf(filters, events)[p]
  {
    forall p | p in GroupsOf(filters, events) ensures e !in GroupsOf(filters, events)[p] {
      EventsOfMembers(events, p, e);
    }
  }

  /** Grouping keeps log order: the events of a package in two pieces of the
    * log are those of the first piece followed by those of the second. */
  lemma {:induction false} EventsOfAppend(a: seq<PacmanEvent>, b: seq<PacmanEvent>, p: string)
    ensures EventsOf(a + b, p) == EventsOf(a, p) + EventsOf(b, p)
    decreases |b|
  {
    if |b| > 0 {
      var b' := b[..|b| - 1];
      EventsOfAppend(a, b', p);
      assert (a + b)[..|a + b| - 1] == a + b';
      assert (a + b)[|a + b| - 1] == b[|b| - 1];
    } else {
      assert a + b == a;
    }
  }

  /** A log of one package's events groups into that log, unchanged. */
  lemma {:induction false} EventsOfSinglePackage(events: seq<PacmanEvent>, p: string)
    requires forall i :: 0 <= i < |events| ==> events[i].package == p
    ensures EventsOf(events, p) == events
  {
    if |events| > 0 {
      EventsOfSinglePackage(events[..|events| - 1], p);
    }
  }

  // ---------------------------------------------------------------- the number of grouped events

  /** Some key of a non-empty map. */
  ghost function Pick(m: Groups): (k: string)
    requires |m.Keys| > 0
    ensures k in m
  {
    assert m.Keys != {};
    var k :| k in m; k
  }

  /** The number of events in all groups together. */
  ghost function Total(m: Groups): nat
    decreases |m.Keys|
  {
    if |m.Keys| == 0 then 0
    else
      assert (m - {Pick(m)}).Keys == m.Keys - {Pick(m)};
      |m[Pick(m)]| + Total(m - {Pick(m)})
  }

  lemma {:induction false} TotalRemove(m: Groups, k: string)
    requires k in m
    ensures Total(m) == |m[k]| + Total(m - {k})
    decreases |m.Keys|
  {
    var j := Pick(m);
    if j != k {
      assert (m - {j}).Keys == m.Keys - {j};
      assert (m - {k}).Keys == m.Keys - {k};
      TotalRemove(m - {j}, k);
      TotalRemove(m - {k}, j);
      assert m - {j} - {k} == m - {k} - {j};
    }
  }

  lemma RemoveAbsent(m: Groups, k: string)
    requires k !in m
    ensures m - {k} == m
  {
  }

  lemma TotalUpdate(m: Groups, k: string, v: seq<PacmanEvent>)
    ensures Total(m[k := v]) == |v| + Total(m - {k})
  {
    TotalRemove(m[k := v], k);
    assert m[k := v] - {k} == m - {k};
  }

  /** Together the groups hold exactly as many events as the log has
    * relevant events. */
  lemma {:induction false} GroupsTotal(filters: seq<string>, events: seq<PacmanEvent>)
    ensures Total(GroupsOf(filters, events)) == |Relevant(filters, events)|
  {
    if |events| == 0 {
      assert GroupsOf(filters, events) == map[];
    } else {
      var s, e := events[..|events| - 1], events[|events| - 1];
      assert events == s + [e];
      GroupsTotal(filters, s);
      var g := GroupsOf(filters, s);
      var p := e.package;
      if !IsRelevantPackage(filters, p) {
        GroupsSnocIrrelevant(filters, s, e);
      } else if p in g {
        GroupsSnocAppend(filters, s, e);
        TotalUpdate(g, p, g[p] + [e]);
        TotalRemove(g, p);
      } else {
        GroupsSnocNew(filters, s, e);
        TotalUpdate(g, p, [e]);
        RemoveAbsent(g, p);
      }
    }
  }
}
