// `without_installed`, `without_removed` and `filter_packages`: group the
// relevant events and keep the packages whose latest event is (or is not) a
// removal. The loop sorts a copy of each group to find its latest event and
// removes keys from a clone of the grouping, so the kept groups are the
// grouping's own, unsorted.
module Filtering {
  import opened Actions
  import opened PacmanEvents
  import opened Grouping
  import opened NewestEvents
  import opened LatestEvents

  /** The groups whose latest event is a removal (`removed`) or is not
    * (`!removed`), with their events as they were. */
  function Kept(groups: Groups, removed: bool): (r: Groups)
  {
    map p | p in groups && |groups[p]| > 0 && IsRemoved(NewestOf(groups[p]).action) == removed :: groups[p]
  }

  /** Every group `GroupRelevant` builds has at least one event. */
  lemma GroupsNonEmpty(filters: seq<string>, events: seq<PacmanEvent>)
    ensures forall p :: p in GroupsOf(filters, events) ==> |GroupsOf(filters, events)[p]| > 0
  {
    forall p | p in GroupsOf(filters, events) ensures |GroupsOf(filters, events)[p]| > 0 {
      GroupContents(filters, events, p);
    }
  }

  /** Removing from the groups the packages whose latest event does not
    * match leaves the kept ones. */
  lemma DroppedLeavesKept(groups: Groups, removed: bool, dropped: set<string>)
    requires forall p :: p in groups ==> |groups[p]| > 0
    requires forall p :: p in dropped <==> p in groups && IsRemoved(NewestOf(groups[p]).action) != removed
    ensures groups - dropped == Kept(groups, removed)
  {
    SameMaps(groups - dropped, Kept(groups, removed));
  }

  /** The loop shared by both filters: start from a clone of the groups and
    * remove every package whose latest event does not match. */
  method RemoveUnless(groups: Groups, removed: bool) returns (kept: Groups)
    requires forall p :: p in groups ==> |groups[p]| > 0
    ensures kept == Kept(groups, removed)
  {
    kept := groups;
    var rest := groups.Keys;
    ghost var dropped: set<string> := {};
    assert kept == groups - dropped;
    while rest != {}
      invariant rest <= groups.Keys
      invariant kept == groups - dropped
      invariant forall q :: q in dropped <==>
        q in groups && q !in rest && IsRemoved(NewestOf(groups[q]).action) != removed
      decreases rest
    {
      var p :| p in rest;
      var a := ToArray(groups[p]);
      var e := Latest(a);
      if IsRemoved(e.action) != removed {
        assert kept - {p} == groups - (dropped + {p});
        kept := kept - {p};
        dropped := dropped + {p};
      }
      rest := rest - {p};
    }
    DroppedLeavesKept(groups, removed, dropped);
  }

  /** `without_installed`: the relevant packages whose latest event is a removal. */
  method WithoutInstalled(filters: seq<string>, events: seq<PacmanEvent>) returns (r: Groups)
    ensures r == Kept(GroupsOf(filters, events), true)
  {
    var groups := GroupRelevant(filters, events);
    GroupsNonEmpty(filters, events);
    r := RemoveUnless(groups, true);
  }

  /** `without_removed`: the relevant packages whose latest event is not a removal. */
  method WithoutRemoved(filters: seq<string>, events: seq<PacmanEvent>) returns (r: Groups)
    ensures r == Kept(GroupsOf(filters, events), false)
  {
    var groups := GroupRelevant(filters, events);
    GroupsNonEmpty(filters, events);
    r := RemoveUnless(groups, false);
  }

  /** `filter_packages`: `removed_only` wins over `with_removed`; with
    * neither, removed packages are dropped. */
  method FilterPackages(removedOnly: bool, withRemoved: bool, filters: seq<string>, events: seq<PacmanEvent>)
    returns (r: Groups)
    ensures removedOnly ==> r == Kept(GroupsOf(filters, events), true)
    ensures !removedOnly && !withRemoved ==> r == Kept(GroupsOf(filters, events), false)
    ensures !removedOnly && withRemoved ==> r == GroupsOf(filters, events)
  {
    if removedOnly {
      r := WithoutInstalled(filters, events);
    } else if !withRemoved {
      r := WithoutRemoved(filters, events);
    } else {
      r := GroupRelevant(filters, events);
    }
  }

  // ---------------------------------------------------------------- properties

  /** A package is kept exactly when the event at its latest position is (or
    * is not) a removal. */
  lemma KeptExactly(groups: Groups, removed: bool, p: string)
    ensures p in Kept(groups, removed) <==>
      p in groups && exists k :: IsLatestAt(groups[p], k) && IsRemoved(groups[p][k].action) == removed
  {
    if p in groups && exists k :: IsLatestAt(groups[p], k) && IsRemoved(groups[p][k].action) == removed {
      var k :| IsLatestAt(groups[p], k) && IsRemoved(groups[p][k].action) == removed;
      NewestOfUnique(groups[p], k);
    }
    if p in Kept(groups, removed) {
      assert IsLatestAt(groups[p], LatestIndex(groups[p]));
    }
  }

  /** The two filters split the grouping: no package is in both, every
    * package is in one, and each keeps its group as it was. */
  lemma KeptPartition(groups: Groups)
    requires forall p :: p in groups ==> |groups[p]| > 0
    ensures Kept(groups, true).Keys !! Kept(groups, false).Keys
    ensures Kept(groups, true).Keys + Kept(groups, false).Keys == groups.Keys
    ensures forall p :: p in Kept(groups, true) ==> Kept(groups, true)[p] == groups[p]
    ensures forall p :: p in Kept(groups, false) ==> Kept(groups, false)[p] == groups[p]
  {
  }

  /** A log without removals loses nothing to `without_removed`. */
  lemma KeptWithoutRemovals(filters: seq<string>, events: seq<PacmanEvent>)
    requires forall i :: 0 <= i < |events| ==> !IsRemoved(events[i].action)
    ensures Kept(GroupsOf(filters, events), false) == GroupsOf(filters, events)
  {
    var g := GroupsOf(filters, events);
    forall p | p in g ensures p in Kept(g, false) {
      GroupContents(filters, events, p);
      NewestOfMaximum(g[p]);
      var i :| 0 <= i < |events| && events[i] == NewestOf(g[p]);
    }
    SameMaps(Kept(g, false), g);
  }
}
