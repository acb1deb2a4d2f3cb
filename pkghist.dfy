// `Event` and `PackageHistory` of src/pkghist/mod.rs, and the ordering part of
// its `run`: the filtered groups are ranked by the date of their last stored
// event (equal dates by package name), each group's events are sorted in
// place, and each sorted group becomes one history.
module History {
  import opened Wrappers
  import opened Chars
  import opened Orderings
  import DateTimes
  import Actions
  import opened PacmanEvents
  import opened Grouping
  import opened NewestEvents
  import opened Filtering
  import opened Windowing
  import StableSort

  /** The printable record of one event: version, date, action. */
  datatype Event = Event(v: string, d: string, a: string)

  /** A package and the records of its events. */
  datatype PackageHistory = PackageHistory(p: string, e: seq<Event>)

  /** Every event has a real date (chrono's dates always are). */
  predicate ValidDates(s: seq<PacmanEvent>) {
    forall e :: e in s ==> DateTimes.Valid(e.date)
  }

  /** `Event::from_pacman_event`: the version the event leaves installed, the
    * date as "YYYY-MM-DD HH:MM:SS" and the action's display name, which
    * parses back to the action. */
  function FromPacmanEvent(e: PacmanEvent): (r: Event)
    requires DateTimes.Valid(e.date)
    ensures r.v == PrintableVersion(e)
    ensures |r.d| == 19
    ensures Actions.FromStr(r.a) == Ok(e.action)
  {
    Actions.FromStrRoundTrip(e.action);
    Event(PrintableVersion(e), DateTimes.ToString(e.date), Actions.ToString(e.action))
  }

  /** The date of a record reads back as the event's date. */
  lemma FromPacmanEventDate(e: PacmanEvent)
    requires DateTimes.Valid(e.date)
    ensures var d := FromPacmanEvent(e).d;
      AllDigits(d[0..4]) && AllDigits(d[5..7]) && AllDigits(d[8..10]) &&
      AllDigits(d[11..13]) && AllDigits(d[14..16]) && AllDigits(d[17..19]) &&
      DateTimes.FromString(d) == e.date
  {
    DateTimes.ToStringRoundTrip(e.date);
  }

  /** `PackageHistory::from_pacman_events`: one record per event, in the same
    * order, named after the first event's package (the `unwrap` of `first`
    * needs an event). */
  function FromPacmanEvents(events: seq<PacmanEvent>): (h: PackageHistory)
    requires |events| > 0 && ValidDates(events)
    ensures h.p == events[0].package
    ensures |h.e| == |events|
    ensures forall i :: 0 <= i < |events| ==> h.e[i] == FromPacmanEvent(events[i])
  {
    PackageHistory(events[0].package,
      seq(|events|, i requires 0 <= i < |events| && ValidDates(events) => FromPacmanEvent(events[i])))
  }

  /** The history `run` makes of a group: its events stably sorted, then
    * converted. */
  function HistoryOf(s: seq<PacmanEvent>): (h: PackageHistory)
    requires |s| > 0 && ValidDates(s)
    ensures |h.e| == |s|
  {
    SortKeepsEvents(s);
    FromPacmanEvents(StableSort.Sort(Cmp, s))
  }

  /** The groups `run` receives: each non-empty, each event of its key's
    * package and with a real date. */
  predicate WellFormed(groups: Groups) {
    (forall p :: p in groups ==> |groups[p]| > 0) &&
    (forall p, e :: p in groups && e in groups[p] ==> e.package == p && DateTimes.Valid(e.date))
  }

  // ---------------------------------------------------------------- a group's history

  /** Sorting keeps exactly the events of the group. */
  lemma SortKeepsEvents(s: seq<PacmanEvent>)
    ensures forall e :: e in StableSort.Sort(Cmp, s) <==> e in s
  {
    StableSort.SortPermutes(Cmp, s);
    forall e ensures e in StableSort.Sort(Cmp, s) <==> e in s {
      assert e in StableSort.Sort(Cmp, s) <==> e in multiset(StableSort.Sort(Cmp, s));
      assert e in s <==> e in multiset(s);
    }
  }

  /** The events of one package, sorted, are in date order. */
  lemma SortedByDate(s: seq<PacmanEvent>, p: string)
    requires forall e :: e in s ==> e.package == p
    ensures forall i, j :: 0 <= i < j < |s| ==>
      DateTimes.Compare(StableSort.Sort(Cmp, s)[i].date, StableSort.Sort(Cmp, s)[j].date) != Greater
  {
    var t := StableSort.Sort(Cmp, s);
    CmpTotalPreorder();
    StableSort.SortSorted(Cmp, s);
    SortKeepsEvents(s);
    forall i, j | 0 <= i < j < |s| ensures DateTimes.Compare(t[i].date, t[j].date) != Greater {
      assert t[i] in t && t[j] in t;
      assert StableSort.Le(Cmp, t[i], t[j]);
    }
  }

  /** Events of one package at the same date compare Equal, and `sort` keeps
    * them in log order: those sharing `e`'s package and date leave the sort
    * in the order the log has them. */
  lemma SameDateKeepsLogOrder(s: seq<PacmanEvent>, e: PacmanEvent)
    ensures StableSort.Ties(Cmp, StableSort.Sort(Cmp, s), e) == StableSort.Ties(Cmp, s, e)
    ensures forall d :: d in StableSort.Ties(Cmp, s, e) <==> d in s && d.package == e.package && d.date == e.date
  {
    CmpTotalPreorder();
    StableSort.SortStable(Cmp, s, e);
    StableSort.TiesMembers(Cmp, s, e);
    forall d ensures Cmp(d, e) == Equal <==> d.package == e.package && d.date == e.date {
      CmpEqual(d, e);
    }
  }

  /** The history of a group of one package is named after the package. */
  lemma HistoryName(s: seq<PacmanEvent>, p: string)
    requires |s| > 0 && ValidDates(s)
    requires forall e :: e in s ==> e.package == p
    ensures HistoryOf(s).p == p
  {
    SortKeepsEvents(s);
    assert StableSort.Sort(Cmp, s)[0] in StableSort.Sort(Cmp, s);
  }

  /** A history holds the record of every event of its group, and no other
    * record. */
  lemma HistoryRecords(s: seq<PacmanEvent>)
    requires |s| > 0 && ValidDates(s)
    ensures forall e :: e in s ==> FromPacmanEvent(e) in HistoryOf(s).e
    ensures forall r :: r in HistoryOf(s).e ==> exists e :: e in s && r == FromPacmanEvent(e)
  {
    var t := StableSort.Sort(Cmp, s);
    var h := HistoryOf(s);
    SortKeepsEvents(s);
    forall e | e in s ensures FromPacmanEvent(e) in h.e {
      var j :| 0 <= j < |t| && t[j] == e;
      assert h.e[j] == FromPacmanEvent(e);
    }
    forall r | r in h.e ensures exists e :: e in s && r == FromPacmanEvent(e) {
      var j :| 0 <= j < |h.e| && h.e[j] == r;
      assert t[j] in t;
    }
  }

  /** The last record of a history is that of the group's newest event. */
  lemma HistoryNewest(s: seq<PacmanEvent>)
    requires |s| > 0 && ValidDates(s)
    ensures HistoryOf(s).e[|s| - 1] == FromPacmanEvent(NewestOf(s))
  {
  }

  // ---------------------------------------------------------------- `run`

  /** What the ordering steps of `run` produce from the groups: one history
    * per group, named after it and made of its sorted events, in the ranking
    * order `order` (ascending by date of the last event, then by name). */
  ghost predicate Ranked(groups: Groups, histories: seq<PackageHistory>, order: seq<string>)
    requires NonEmptyGroups(groups) && WellFormed(groups)
  {
    |histories| == |order| == |groups.Keys| &&
    (forall p :: p in groups <==> p in order) &&
    (forall i :: 0 <= i < |order| ==> order[i] in groups && histories[i] == HistoryOf(groups[order[i]])) &&
    (forall i, j :: 0 <= i < j < |order| ==> RankedBefore(groups, order[i], order[j])) &&
    (forall i :: 0 <= i < |order| ==> histories[i].p == order[i])
  }

  /** The ordering loop of `run`: rank the groups, then sort each group's
    * events in place and push its history. `order` is the ranking of the
    * package names. */
  method Histories(groups: Groups) returns (histories: seq<PackageHistory>, ghost order: seq<string>)
    requires NonEmptyGroups(groups) && WellFormed(groups)
    ensures Ranked(groups, histories, order)
  {
    var entries := RankEntries(groups);
    var sorted := SortEntries(entries);
    SortKeepsRanked(groups, entries);
    StrictRanking(groups, sorted);
    var names := Names(sorted);
    RankedNames(groups, sorted);
    order := names;
    histories := HistoriesInOrder(groups, names);
  }

  /** The names of the sorted entries: every package once, in ranking order. */
  lemma RankedNames(groups: Groups, sorted: seq<Entry>)
    requires NonEmptyGroups(groups) && RankedEntries(groups, sorted)
    requires forall i, j :: 0 <= i < j < |sorted| ==> RankCmp(sorted[i], sorted[j]) == Less
    ensures |Names(sorted)| == |groups.Keys| && Visits(groups, Names(sorted))
    ensures forall p :: p in groups <==> p in Names(sorted)
    ensures forall i, j :: 0 <= i < j < |sorted| ==> RankedBefore(groups, Names(sorted)[i], Names(sorted)[j])
  {
    var order := Names(sorted);
    forall i, j | 0 <= i < j < |order| ensures RankedBefore(groups, order[i], order[j]) {
      assert sorted[i] == RankOf(groups, order[i]) && sorted[j] == RankOf(groups, order[j]);
    }
  }

  /** The loop of `run`: for each package in the given order, sort its events
    * in place and push its history. */
  method HistoriesInOrder(groups: Groups, names: seq<string>) returns (histories: seq<PackageHistory>)
    requires WellFormed(groups) && Visits(groups, names)
    ensures histories == InOrder(groups, names)
    ensures forall k :: 0 <= k < |names| ==> histories[k].p == names[k]
  {
    histories := [];
    var i := 0;
    while i < |names|
      invariant 0 <= i <= |names|
      invariant histories == InOrder(groups, names[..i])
    {
      var p := names[i];
      var h := SortedHistory(groups, p);
      InOrderStep(groups, names, i);
      histories := histories + [h];
      i := i + 1;
    }
    assert names[..i] == names;
    forall k | 0 <= k < |names| ensures histories[k].p == names[k] {
      InOrderAt(groups, names, k);
    }
  }

  /** One step of that loop: copy the group's events, sort them in place and
    * make them a history. */
  method SortedHistory(groups: Groups, p: string) returns (h: PackageHistory)
    requires WellFormed(groups) && p in groups
    ensures h == HistoryOf(groups[p]) && h.p == p
  {
    var a := ToArray(groups[p]);
    StableSort.SortInPlace(Cmp, a);
    GroupHistory(groups, p);
    h := FromPacmanEvents(a[..]);
  }

  /** Every name `order` visits is a group's. */
  ghost predicate Visits(groups: Groups, order: seq<string>) {
    forall k :: 0 <= k < |order| ==> order[k] in groups
  }

  /** The histories of the groups in the order `order` visits them. */
  function InOrder(groups: Groups, order: seq<string>): (r: seq<PackageHistory>)
    requires WellFormed(groups) && forall k :: 0 <= k < |order| ==> order[k] in groups
    ensures |r| == |order|
    ensures forall k :: 0 <= k < |order| ==> r[k] == HistoryOf(groups[order[k]])
  {
    seq(|order|, k requires 0 <= k < |order| && WellFormed(groups) && order[k] in groups =>
      HistoryOf(groups[order[k]]))
  }

  lemma InOrderSnoc(groups: Groups, names: seq<string>, p: string)
    requires WellFormed(groups) && p in groups
    requires Visits(groups, names)
    ensures InOrder(groups, names + [p]) == InOrder(groups, names) + [HistoryOf(groups[p])]
  {
    var n := names + [p];
    forall k | 0 <= k < |names| ensures n[k] == names[k] {
    }
  }

  /** The same step, on a prefix of a visiting order. */
  lemma InOrderStep(groups: Groups, names: seq<string>, i: nat)
    requires WellFormed(groups) && Visits(groups, names) && i < |names|
    ensures InOrder(groups, names[..i + 1]) == InOrder(groups, names[..i]) + [HistoryOf(groups[names[i]])]
  {
    assert names[..i + 1] == names[..i] + [names[i]];
    InOrderSnoc(groups, names[..i], names[i]);
  }

  /** The history at a position is named after the group visited there. */
  lemma InOrderAt(groups: Groups, order: seq<string>, k: nat)
    requires WellFormed(groups) && Visits(groups, order) && k < |order|
    ensures InOrder(groups, order)[k].p == order[k]
    ensures InOrder(groups, order)[k] == HistoryOf(groups[order[k]])
  {
    GroupHistory(groups, order[k]);
  }

  /** The sorted events of a well-formed group make its history, named after
    * the group's package. */
  lemma GroupHistory(groups: Groups, p: string)
    requires WellFormed(groups) && p in groups
    ensures |StableSort.Sort(Cmp, groups[p])| > 0 && ValidDates(StableSort.Sort(Cmp, groups[p]))
    ensures HistoryOf(groups[p]) == FromPacmanEvents(StableSort.Sort(Cmp, groups[p]))
    ensures HistoryOf(groups[p]).p == p
  {
    SortKeepsEvents(groups[p]);
    HistoryName(groups[p], p);
  }

  /** The groups `filter_packages` hands to `run`. */
  function Filtered(removedOnly: bool, withRemoved: bool, filters: seq<string>, events: seq<PacmanEvent>): Groups {
    if removedOnly then Kept(GroupsOf(filters, events), true)
    else if !withRemoved then Kept(GroupsOf(filters, events), false)
    else GroupsOf(filters, events)
  }

  /** The groups of a log of real dates are well formed, and so is what the
    * state filters keep of them. */
  lemma FilteredWellFormed(removedOnly: bool, withRemoved: bool, filters: seq<string>, events: seq<PacmanEvent>)
    requires ValidDates(events)
    ensures WellFormed(Filtered(removedOnly, withRemoved, filters, events))
  {
    var g := GroupsOf(filters, events);
    forall p | p in g ensures |g[p]| > 0 && forall e: PacmanEvent :: e in g[p] ==> e.package == p && DateTimes.Valid(e.date) {
      GroupContents(filters, events, p);
    }
  }

  /** Lines 25-47 of `run`: filter the groups, then order them into histories.
    * There is one history per filtered group, named after it, the histories
    * ascending by (date of last stored event, name). */
  method Run(removedOnly: bool, withRemoved: bool, filters: seq<string>, events: seq<PacmanEvent>)
    returns (histories: seq<PackageHistory>, ghost order: seq<string>)
    requires ValidDates(events)
    ensures var g := Filtered(removedOnly, withRemoved, filters, events);
      WellFormed(g) && NonEmptyGroups(g) && Ranked(g, histories, order)
  {
    var groups := FilterPackages(removedOnly, withRemoved, filters, events);
    FilteredWellFormed(removedOnly, withRemoved, filters, events);
    histories, order := Histories(groups);
  }

  // ---------------------------------------------------------------- determinism

  /** The ranking has no ties: no package is ranked before itself, and of two
    * packages at most one is ranked before the other. */
  lemma RankedStrict(groups: Groups, p: string, q: string)
    requires NonEmptyGroups(groups) && p in groups && q in groups
    ensures !RankedBefore(groups, p, p)
    ensures !(RankedBefore(groups, p, q) && RankedBefore(groups, q, p))
  {
    RankCmpEqual(RankOf(groups, p), RankOf(groups, p));
    RankCmpFlip(RankOf(groups, p), RankOf(groups, q));
  }

  /** Two orders of the same packages, each ascending in the ranking, are the
    * same order. */
  lemma {:induction false} RankedUnique(groups: Groups, a: seq<string>, b: seq<string>)
    requires NonEmptyGroups(groups)
    requires forall k :: 0 <= k < |a| ==> a[k] in groups
    requires forall k :: 0 <= k < |b| ==> b[k] in groups
    requires forall i, j :: 0 <= i < j < |a| ==> RankedBefore(groups, a[i], a[j])
    requires forall i, j :: 0 <= i < j < |b| ==> RankedBefore(groups, b[i], b[j])
    requires |a| == |b| && forall x :: x in a <==> x in b
    ensures a == b
    decreases |a|
  {
    if |a| > 0 {
      assert a[0] in b && b[0] in a;
      var i :| 0 <= i < |b| && b[i] == a[0];
      var j :| 0 <= j < |a| && a[j] == b[0];
      RankedStrict(groups, a[0], b[0]);
      assert i == 0 || j == 0;
      assert a[0] == b[0];
      forall x ensures x in a[1..] <==> x in b[1..] {
        if x in a[1..] {
          var k :| 0 <= k < |a[1..]| && a[1..][k] == x;
          assert a[k + 1] == x && x in b;
          RankedStrict(groups, a[0], x);
          var m :| 0 <= m < |b| && b[m] == x;
          assert b[1..][m - 1] == x;
        }
        if x in b[1..] {
          var k :| 0 <= k < |b[1..]| && b[1..][k] == x;
          assert b[k + 1] == x && x in a;
          RankedStrict(groups, b[0], x);
          var m :| 0 <= m < |a| && a[m] == x;
          assert a[1..][m - 1] == x;
        }
      }
      RankedUnique(groups, a[1..], b[1..]);
      assert a == [a[0]] + a[1..] && b == [b[0]] + b[1..];
    }
  }

  /** The histories `run` prints are determined by the groups alone: the order
    * in which the map is iterated does not matter. */
  lemma RankedDetermined(groups: Groups, h1: seq<PackageHistory>, o1: seq<string>,
                         h2: seq<PackageHistory>, o2: seq<string>)
    requires NonEmptyGroups(groups) && WellFormed(groups)
    requires Ranked(groups, h1, o1) && Ranked(groups, h2, o2)
    ensures o1 == o2 && h1 == h2
  {
    RankedOrders(groups, h1, o1, h2, o2);
    RankedHistories(groups, h1, h2, o1);
  }

  lemma RankedOrders(groups: Groups, h1: seq<PackageHistory>, o1: seq<string>,
                     h2: seq<PackageHistory>, o2: seq<string>)
    requires NonEmptyGroups(groups) && WellFormed(groups)
    requires Ranked(groups, h1, o1) && Ranked(groups, h2, o2)
    ensures o1 == o2
  {
    RankedUnique(groups, o1, o2);
  }

  lemma RankedHistories(groups: Groups, h1: seq<PackageHistory>, h2: seq<PackageHistory>, o: seq<string>)
    requires NonEmptyGroups(groups) && WellFormed(groups)
    requires Ranked(groups, h1, o) && Ranked(groups, h2, o)
    ensures h1 == h2
  {
    forall i | 0 <= i < |h1| ensures h1[i] == h2[i] {
    }
  }
}
