// The event ordering on the examples of src/pacman/mod.rs: three upgrades of
// one package sort by date, and two interleaved packages sort by name first
// and by date within each package.
module EventOrderExamples {
  import opened Wrappers
  import opened Orderings
  import opened DateTimes
  import opened Actions
  import opened PacmanEvents
  import StableSort

  /** Each event strictly before the next makes every earlier event strictly
    * before every later one. */
  lemma {:induction false} StrictChain(s: seq<PacmanEvent>)
    requires forall i :: 0 <= i < |s| - 1 ==> Cmp(s[i], s[i + 1]) == Less
    ensures forall i, j :: 0 <= i < j < |s| ==> Cmp(s[i], s[j]) == Less
  {
    if |s| > 1 {
      var n := |s| - 1;
      var p := s[..n];
      StrictChain(p);
      forall i, j | 0 <= i < j < |s| ensures Cmp(s[i], s[j]) == Less {
        if j < n {
          assert s[i] == p[i] && s[j] == p[j];
        } else if i < n - 1 {
          assert s[i] == p[i] && s[n - 1] == p[n - 1];
          CmpLessTransitive(s[i], s[n - 1], s[j]);
        }
      }
    }
  }

  /** Three events in ascending order come out of the sort in that order
    * whatever order they go in as `[p2, p3, p1]`. */
  lemma SortThree(p1: PacmanEvent, p2: PacmanEvent, p3: PacmanEvent)
    requires Cmp(p1, p2) == Less && Cmp(p2, p3) == Less
    ensures StableSort.Sort(Cmp, [p2, p3, p1]) == [p1, p2, p3]
  {
    CmpTotalPreorder();
    StrictChain([p1, p2, p3]);
    assert multiset([p2, p3, p1]) == multiset([p1, p2, p3]);
    StableSort.SortOfStrict(Cmp, [p2, p3, p1], [p1, p2, p3]);
  }

  /** Eight events in ascending order come out of the sort in that order from
    * the shuffle `[p5, p3, p8, p6, p1, p4, p2, p7]`. */
  lemma SortEight(p1: PacmanEvent, p2: PacmanEvent, p3: PacmanEvent, p4: PacmanEvent,
                  p5: PacmanEvent, p6: PacmanEvent, p7: PacmanEvent, p8: PacmanEvent)
    requires Cmp(p1, p2) == Less && Cmp(p2, p3) == Less && Cmp(p3, p4) == Less && Cmp(p4, p5) == Less
    requires Cmp(p5, p6) == Less && Cmp(p6, p7) == Less && Cmp(p7, p8) == Less
    ensures StableSort.Sort(Cmp, [p5, p3, p8, p6, p1, p4, p2, p7]) == [p1, p2, p3, p4, p5, p6, p7, p8]
  {
    var t := [p1, p2, p3, p4, p5, p6, p7, p8];
    ShufflePermutes(p1, p2, p3, p4, p5, p6, p7, p8);
    EightAscending(p1, p2, p3, p4, p5, p6, p7, p8);
    CmpTotalPreorder();
    StableSort.SortOfStrict(Cmp, [p5, p3, p8, p6, p1, p4, p2, p7], t);
  }

  /** Eight events each strictly before the next are strictly ascending. */
  lemma EightAscending(p1: PacmanEvent, p2: PacmanEvent, p3: PacmanEvent, p4: PacmanEvent,
                       p5: PacmanEvent, p6: PacmanEvent, p7: PacmanEvent, p8: PacmanEvent)
    requires Cmp(p1, p2) == Less && Cmp(p2, p3) == Less && Cmp(p3, p4) == Less && Cmp(p4, p5) == Less
    requires Cmp(p5, p6) == Less && Cmp(p6, p7) == Less && Cmp(p7, p8) == Less
    ensures var t := [p1, p2, p3, p4, p5, p6, p7, p8];
      forall i, j :: 0 <= i < j < |t| ==> Cmp(t[i], t[j]) == Less
  {
    StrictChain([p1, p2, p3, p4, p5, p6, p7, p8]);
  }

  /** The shuffle of that test has the same elements as the sorted order. */
  lemma ShufflePermutes<T>(p1: T, p2: T, p3: T, p4: T, p5: T, p6: T, p7: T, p8: T)
    ensures multiset([p5, p3, p8, p6, p1, p4, p2, p7]) == multiset([p1, p2, p3, p4, p5, p6, p7, p8])
  {
    StableSort.PermByIndex([p5, p3, p8, p6, p1, p4, p2, p7], [p1, p2, p3, p4, p5, p6, p7, p8], [4, 2, 7, 5, 0, 3, 1, 6]);
  }

  function Nvidia(minute: int, a: Action, from: string, to: Option<string>): PacmanEvent {
    PacmanEvent(DateTime(2019, 7, 16, 21, minute, 0), a, "nvidia", from, to)
  }

  /** The three nvidia events (21:07, 21:08, 21:09 on 2019-07-16) sort by date. */
  lemma NvidiaByDate()
    ensures var p1 := Nvidia(7, Installed, "430.26", None);
            var p2 := Nvidia(8, Upgraded, "430.26", Some("430.26-5"));
            var p3 := Nvidia(9, Upgraded, "430.26-9", Some("430.26-10"));
            StableSort.Sort(Cmp, [p2, p3, p1]) == [p1, p2, p3]
  {
    var p1 := Nvidia(7, Installed, "430.26", None);
    var p2 := Nvidia(8, Upgraded, "430.26", Some("430.26-5"));
    var p3 := Nvidia(9, Upgraded, "430.26-9", Some("430.26-10"));
    CmpSamePackage(p1, p2);
    CmpSamePackage(p2, p3);
    SortThree(p1, p2, p3);
  }

  /** Two nvidia events logged in the same minute compare Equal, so the sort
    * leaves them in log order, whichever order that is. */
  lemma SameMinuteKeepsLogOrder()
    ensures var a := Nvidia(7, Installed, "430.26", None);
            var b := Nvidia(7, Upgraded, "430.26", Some("430.26-5"));
            Cmp(a, b) == Equal &&
            StableSort.Sort(Cmp, [a, b]) == [a, b] && StableSort.Sort(Cmp, [b, a]) == [b, a]
  {
    var a := Nvidia(7, Installed, "430.26", None);
    var b := Nvidia(7, Upgraded, "430.26", Some("430.26-5"));
    CmpEqual(a, b);
    CmpEqual(b, a);
    assert [a, b][..1] == [a] && [b, a][..1] == [b];
  }

  const Idea: string := "intellij-idea-community-edition"

  function IdeaAt(month: int, day: int, hour: int, minute: int, a: Action, from: string, to: Option<string>): PacmanEvent {
    PacmanEvent(DateTime(2019, month, day, hour, minute, 0), a, Idea, from, to)
  }

  function LinuxAt(month: int, day: int, hour: int, minute: int, from: string, to: string): PacmanEvent {
    PacmanEvent(DateTime(2019, month, day, hour, minute, 0), Upgraded, "linux", from, Some(to))
  }

  /** "intellij-idea-community-edition" sorts before "linux": 'i' < 'l'. */
  lemma IdeaBeforeLinux()
    ensures StringLess(Idea, "linux")
  {
    assert Idea[0] == 'i' && "linux"[0] == 'l';
  }

  /** The intellij and linux events, shuffled, sort into the four intellij
    * events by date followed by the four linux events by date: the name
    * decides between packages although three linux events are older than
    * the last two intellij ones. */
  lemma IdeaAndLinuxByPackageThenDate()
    ensures var p1 := IdeaAt(5, 23, 7, 0, Installed, "2:2019.1.2-1", None);
            var p2 := IdeaAt(5, 29, 22, 25, Upgraded, "2:2019.1.2-1", Some("2:2019.1.3-1"));
            var p3 := IdeaAt(7, 25, 1, 17, Upgraded, "2:2019.1.3-1", Some("2:2019.1.3-2"));
            var p4 := IdeaAt(7, 25, 23, 38, Upgraded, "2:2019.1.3-2", Some("2:2019.2-1"));
            var p5 := LinuxAt(7, 8, 1, 1, "5.1.15.arch1-1", "5.1.16.arch1-1");
            var p6 := LinuxAt(7, 11, 22, 8, "5.1.16.arch1-1", "5.2.arch2-1");
            var p7 := LinuxAt(7, 16, 21, 9, "5.2.arch2-1", "5.2.1.arch1-1");
            var p8 := LinuxAt(7, 25, 1, 16, "5.2.1.arch1-1", "5.2.2.arch1-1");
            StableSort.Sort(Cmp, [p5, p3, p8, p6, p1, p4, p2, p7]) == [p1, p2, p3, p4, p5, p6, p7, p8]
  {
    var p1 := IdeaAt(5, 23, 7, 0, Installed, "2:2019.1.2-1", None);
    var p2 := IdeaAt(5, 29, 22, 25, Upgraded, "2:2019.1.2-1", Some("2:2019.1.3-1"));
    var p3 := IdeaAt(7, 25, 1, 17, Upgraded, "2:2019.1.3-1", Some("2:2019.1.3-2"));
    var p4 := IdeaAt(7, 25, 23, 38, Upgraded, "2:2019.1.3-2", Some("2:2019.2-1"));
    var p5 := LinuxAt(7, 8, 1, 1, "5.1.15.arch1-1", "5.1.16.arch1-1");
    var p6 := LinuxAt(7, 11, 22, 8, "5.1.16.arch1-1", "5.2.arch2-1");
    var p7 := LinuxAt(7, 16, 21, 9, "5.2.arch2-1", "5.2.1.arch1-1");
    var p8 := LinuxAt(7, 25, 1, 16, "5.2.1.arch1-1", "5.2.2.arch1-1");
    CmpSamePackage(p1, p2);
    CmpSamePackage(p2, p3);
    CmpSamePackage(p3, p4);
    assert Idea != "linux" by {
      assert Idea[0] != "linux"[0];
    }
    IdeaBeforeLinux();
    CmpDifferentPackages(p4, p5);
    CmpSamePackage(p5, p6);
    CmpSamePackage(p6, p7);
    CmpSamePackage(p7, p8);
    SortEight(p1, p2, p3, p4, p5, p6, p7, p8);
  }
}
