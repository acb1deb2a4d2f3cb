// The printer examples of the unit tests of src/pkghist/format.rs: the plain
// and compact output of one package's history, with and without colours and
// details, the column widths of two histories, and the last action.
module PrinterExamples {
  import opened Wrappers
  import opened Actions
  import opened History
  import opened Printers

  /** A display name parses back to its action. */
  lemma NameParses(s: string, a: Action)
    requires s == Actions.ToString(a)
    ensures Actions.FromStr(s) == Ok(a)
  {
    FromStrRoundTrip(a);
  }

  /** The two histories of the width example. */
  function TwoPackages(): seq<PackageHistory> {
    [PackageHistory("foo", [Event("0.0.1", "2019-08-26 12:00:00", "Installed"),
                            Event("0.0.2", "2019-08-30 13:30:00", "Upgraded")]),
     PackageHistory("another", [Event("1.0.1", "2019-08-27 12:00:00", "Installed"),
                                Event("1.0.2-deadbeef", "2019-09-01 13:30:00", "Upgraded")])]
  }

  lemma MaxOfTwo(x: nat, y: nat)
    ensures MaxOf([x, y]) == if x < y then y else x
  {
    assert [x, y][..1] == [x];
  }

  lemma MaxOfFour(x: nat, y: nat, z: nat, u: nat)
    ensures MaxOf([x, y, z, u]) == MaxOf([MaxOf([x, y]), MaxOf([z, u])])
  {
    assert [x, y, z, u][..3] == [x, y, z];
    assert [x, y, z][..2] == [x, y];
    MaxOfTwo(x, y);
    MaxOfTwo(z, u);
    MaxOfTwo(MaxOf([x, y]), MaxOf([z, u]));
  }

  /** The widths of two histories of two events each. */
  lemma MaxLensOfTwo(h1: PackageHistory, h2: PackageHistory)
    requires |h1.e| == 2 && |h2.e| == 2
    ensures var es := h1.e + h2.e;
      MaxLens([h1, h2]) == Some(Widths(MaxOf([|h1.p|, |h2.p|]),
        MaxOf([|es[0].d|, |es[1].d|, |es[2].d|, |es[3].d|]),
        MaxOf([|es[0].a|, |es[1].a|, |es[2].a|, |es[3].a|]),
        MaxOf([|es[0].v|, |es[1].v|, |es[2].v|, |es[3].v|])))
  {
    var es := h1.e + h2.e;
    AllEventsOfTwo(h1, h2);
    assert NameLengths([h1, h2]) == [|h1.p|, |h2.p|];
    LengthsOfFour(es);
  }

  lemma AllEventsOfTwo(h1: PackageHistory, h2: PackageHistory)
    ensures AllEvents([h1, h2]) == h1.e + h2.e
  {
    assert [h1, h2][..1] == [h1] && [h1][..0] == [];
    assert AllEvents([h1]) == AllEvents([]) + h1.e == h1.e;
  }

  lemma LengthsOfFour(es: seq<Event>)
    requires |es| == 4
    ensures DateLengths(es) == [|es[0].d|, |es[1].d|, |es[2].d|, |es[3].d|]
    ensures ActionLengths(es) == [|es[0].a|, |es[1].a|, |es[2].a|, |es[3].a|]
    ensures VersionLengths(es) == [|es[0].v|, |es[1].v|, |es[2].v|, |es[3].v|]
  {
  }

  /** "another" is the widest name, "Installed" the widest action and
    * "1.0.2-deadbeef" the widest version. */
  lemma MaxLensExample()
    ensures MaxLens(TwoPackages()) == Some(Widths(7, 19, 9, 14))
  {
    var hs := TwoPackages();
    MaxLensOfTwo(hs[0], hs[1]);
    assert hs == [hs[0], hs[1]];
    MaxOfTwo(3, 7);
    MaxOfFour(19, 19, 19, 19);
    MaxOfTwo(19, 19);
    MaxOfFour(9, 8, 9, 8);
    MaxOfTwo(9, 8);
    MaxOfFour(5, 5, 5, 14);
    MaxOfTwo(5, 5);
    MaxOfTwo(5, 14);
  }

  /** An event record as the tests write it, the action by its name. */
  function Ev(v: string, d: string, a: Action): Event {
    Event(v, d, Actions.ToString(a))
  }

  lemma EvParses(v: string, d: string, a: Action)
    ensures Actions.FromStr(Ev(v, d, a).a) == Ok(a)
  {
    FromStrRoundTrip(a);
  }

  /** The history of the last-action examples, ending with `last`. */
  function Another(last: Action): PackageHistory {
    PackageHistory("another", [Ev("1.0.1", "2019-08-27 12:00:00", Installed),
                               Ev("1.0.2-deadbeef", "2019-09-01 13:30:00", last)])
  }

  /** The last action of a history of two events is that of the second. */
  lemma LastOfTwo(p: string, e1: Event, e2: Event, a1: Action, a2: Action)
    requires Actions.FromStr(e1.a) == Ok(a1) && Actions.FromStr(e2.a) == Ok(a2)
    ensures PrintableHistory(PackageHistory(p, [e1, e2]))
    ensures LastAction(PackageHistory(p, [e1, e2])) == a2
  {
    var es := [e1, e2];
    forall j | 0 <= j < |es| ensures Actions.FromStr(es[j].a).Ok? {
      if j == 0 {} else {}
    }
  }

  lemma LastActionExamples()
    ensures PrintableHistory(Another(Removed)) && LastAction(Another(Removed)) == Removed
    ensures PrintableHistory(Another(Upgraded)) && LastAction(Another(Upgraded)) == Upgraded
  {
    var (e1, e2, e3) := (Ev("1.0.1", "2019-08-27 12:00:00", Installed),
                         Ev("1.0.2-deadbeef", "2019-09-01 13:30:00", Removed),
                         Ev("1.0.2-deadbeef", "2019-09-01 13:30:00", Upgraded));
    EvParses("1.0.1", "2019-08-27 12:00:00", Installed);
    EvParses("1.0.2-deadbeef", "2019-09-01 13:30:00", Removed);
    EvParses("1.0.2-deadbeef", "2019-09-01 13:30:00", Upgraded);
    LastOfTwo("another", e1, e2, Installed, Removed);
    LastOfTwo("another", e1, e3, Installed, Upgraded);
  }

  // ---------------------------------------------------------------- plain output

  /** The output of a history of one event, uncoloured. */
  lemma PlainOfOne(p: string, e: Event)
    ensures PlainLines([PackageHistory(p, [e])], false, false) ==
      [Line(None, p), Line(None, "  [" + e.d + "] " + e.a), Line(None, "    " + e.v)]
    ensures PlainLines([PackageHistory(p, [e])], false, true) == [Line(None, p)]
  {
    var h := PackageHistory(p, [e]);
    assert [h][..0] == [] && [e][..0] == [];
    assert PlainEvents([e], false) == PlainEvents([], false) + EventLines(e, None);
    assert PlainLines([h], false, false) == PlainLines([], false, false) + PlainHistory(h, false, false);
    assert PlainLines([h], false, true) == PlainLines([], false, true) + PlainHistory(h, false, true);
  }

  lemma RenderOne(a: Line)
    ensures Render([a]) == a.text + "\n"
  {
    assert [a][..0] == [];
  }

  lemma RenderThree(a: Line, b: Line, c: Line)
    ensures Render([a, b, c]) == a.text + "\n" + b.text + "\n" + c.text + "\n"
  {
    assert [a, b, c][..2] == [a, b] && [a, b][..1] == [a];
    RenderOne(a);
  }

  /** The one history of the single-event examples. */
  function FooInstalled(): seq<PackageHistory> {
    [PackageHistory("foo", [Ev("0.0.1", "2019-08-26 12:00:00", Installed)])]
  }

  /** The rendered output of a history of one event, uncoloured. */
  lemma RenderPlainOfOne(p: string, e: Event)
    ensures Render(PlainLines([PackageHistory(p, [e])], false, false)) ==
      p + "\n" + "  [" + e.d + "] " + e.a + "\n" + "    " + e.v + "\n"
    ensures Render(PlainLines([PackageHistory(p, [e])], false, true)) == p + "\n"
  {
    PlainOfOne(p, e);
    RenderThree(Line(None, p), Line(None, "  [" + e.d + "] " + e.a), Line(None, "    " + e.v));
    RenderOne(Line(None, p));
  }

  lemma PlainNoColorsExample()
    ensures Render(PlainLines(FooInstalled(), false, false)) ==
      "foo" + "\n" + "  [" + "2019-08-26 12:00:00" + "] " + "Installed" + "\n" + "    " + "0.0.1" + "\n"
    ensures Render(PlainLines(FooInstalled(), false, true)) == "foo" + "\n"
  {
    RenderPlainOfOne("foo", Ev("0.0.1", "2019-08-26 12:00:00", Installed));
  }

  /** The output of a history of one event, coloured, without details. */
  lemma PlainOfOneColored(p: string, e: Event, a: Action)
    requires Actions.FromStr(e.a) == Ok(a)
    ensures Printable([PackageHistory(p, [e])])
    ensures PlainLines([PackageHistory(p, [e])], true, true) == [Line(Some(if a == Removed then Red else Green), p)]
  {
    var h := PackageHistory(p, [e]);
    assert EventsParse(h.e);
    assert [h][..0] == [];
    assert PlainLines([h], true, true) == PlainLines([], true, true) + PlainHistory(h, true, true);
  }

  /** With colours and without details, a package whose last event installed
    * it is a green name. */
  lemma PlainColoredNoDetailsExample()
    ensures Printable(FooInstalled())
    ensures PlainLines(FooInstalled(), true, true) == [Line(Some(Green), "foo")]
  {
    EvParses("0.0.1", "2019-08-26 12:00:00", Installed);
    PlainOfOneColored("foo", Ev("0.0.1", "2019-08-26 12:00:00", Installed), Installed);
  }

  /** The output of a history of three events, coloured. */
  lemma PlainOfThree(p: string, e1: Event, e2: Event, e3: Event, a1: Action, a2: Action, a3: Action)
    requires Actions.FromStr(e1.a) == Ok(a1) && Actions.FromStr(e2.a) == Ok(a2) && Actions.FromStr(e3.a) == Ok(a3)
    ensures Printable([PackageHistory(p, [e1, e2, e3])])
    ensures PlainLines([PackageHistory(p, [e1, e2, e3])], true, false) ==
      [Line(Some(if a3 == Removed then Red else Green), p)] +
      EventLines(e1, PlainEventColor(a1)) + EventLines(e2, PlainEventColor(a2)) + EventLines(e3, PlainEventColor(a3))
  {
    var es := [e1, e2, e3];
    var h := PackageHistory(p, es);
    forall j | 0 <= j < 3 ensures Actions.FromStr(es[j].a).Ok? {
      if j == 0 {} else if j == 1 {} else {}
    }
    assert [h][..0] == [];
    assert es[..2] == [e1, e2] && [e1, e2][..1] == [e1] && [e1][..0] == [];
    assert PlainEvents([e1], true) == PlainEvents([], true) + EventLines(e1, PlainEventColor(a1));
    assert PlainEvents([e1, e2], true) == PlainEvents([e1], true) + EventLines(e2, PlainEventColor(a2));
    assert PlainEvents(es, true) == PlainEvents([e1, e2], true) + EventLines(e3, PlainEventColor(a3));
    assert PlainLines([h], true, false) == PlainLines([], true, false) + PlainHistory(h, true, false);
  }

  /** The coloured example: the name red, as the package was removed last; the
    * upgrade in the default colour, the downgrade yellow, the removal red. */
  lemma PlainColoredExample()
    ensures var (e1, e2, e3) := (Ev("0.0.2", "2019-08-26 12:00:00", Upgraded),
                                 Ev("0.0.1", "2019-08-26 13:00:00", Downgraded),
                                 Ev("0.0.1", "2019-08-26 14:00:00", Removed));
      Printable([PackageHistory("foo", [e1, e2, e3])]) &&
      PlainLines([PackageHistory("foo", [e1, e2, e3])], true, false) ==
        [Line(Some(Red), "foo")] + EventLines(e1, None) + EventLines(e2, Some(Yellow)) + EventLines(e3, Some(Red))
  {
    EvParses("0.0.2", "2019-08-26 12:00:00", Upgraded);
    EvParses("0.0.1", "2019-08-26 13:00:00", Downgraded);
    EvParses("0.0.1", "2019-08-26 14:00:00", Removed);
    PlainOfThree("foo", Ev("0.0.2", "2019-08-26 12:00:00", Upgraded), Ev("0.0.1", "2019-08-26 13:00:00", Downgraded),
                 Ev("0.0.1", "2019-08-26 14:00:00", Removed), Upgraded, Downgraded, Removed);
  }

  // ---------------------------------------------------------------- compact output

  lemma AllEventsOfOne(h: PackageHistory)
    ensures AllEvents([h]) == h.e
  {
    assert [h][..0] == [];
    assert AllEvents([h]) == AllEvents([]) + h.e;
  }

  lemma MaxOfOne(x: nat)
    ensures MaxOf([x]) == x
  {
  }

  lemma MaxOfThree(x: nat, y: nat, z: nat)
    ensures MaxOf([x, y, z]) == if MaxOf([x, y]) < z then z else MaxOf([x, y])
  {
    assert [x, y, z][..2] == [x, y];
  }

  /** The widths of one history of one event are its own lengths. */
  lemma MaxLensOfOne(h: PackageHistory)
    requires |h.e| == 1
    ensures MaxLens([h]) == Some(Widths(|h.p|, |h.e[0].d|, |h.e[0].a|, |h.e[0].v|))
  {
    AllEventsOfOne(h);
    assert NameLengths([h]) == [|h.p|];
    assert DateLengths(h.e) == [|h.e[0].d|] && ActionLengths(h.e) == [|h.e[0].a|] && VersionLengths(h.e) == [|h.e[0].v|];
  }

  /** The widths of one history of three events. */
  lemma MaxLensOfThree(h: PackageHistory)
    requires |h.e| == 3
    ensures var es := h.e;
      MaxLens([h]) == Some(Widths(|h.p|, MaxOf([|es[0].d|, |es[1].d|, |es[2].d|]),
        MaxOf([|es[0].a|, |es[1].a|, |es[2].a|]), MaxOf([|es[0].v|, |es[1].v|, |es[2].v|])))
  {
    AllEventsOfOne(h);
    assert NameLengths([h]) == [|h.p|];
    LengthsOfThree(h.e);
  }

  lemma LengthsOfThree(es: seq<Event>)
    requires |es| == 3
    ensures DateLengths(es) == [|es[0].d|, |es[1].d|, |es[2].d|]
    ensures ActionLengths(es) == [|es[0].a|, |es[1].a|, |es[2].a|]
    ensures VersionLengths(es) == [|es[0].v|, |es[1].v|, |es[2].v|]
  {
  }

  /** The loops over one history print its events' lines. */
  lemma CompactLinesOfOne(h: PackageHistory, w: Widths, withColors: bool, withoutDetails: bool)
    requires withColors ==> EventsParse(h.e)
    ensures withColors ==> Parses([h])
    ensures CompactLines([h], w, withColors, withoutDetails) == CompactEvents(h.p, h.e, w, withColors, withoutDetails)
  {
    assert [h][..0] == [];
    assert CompactLines([h], w, withColors, withoutDetails) ==
      CompactLines([], w, withColors, withoutDetails) + CompactEvents(h.p, h.e, w, withColors, withoutDetails);
  }

  lemma PadRightExact(s: string)
    ensures PadRight(s, |s|) == s
  {
  }

  lemma OneParses(e: Event)
    requires Actions.FromStr(e.a).Ok?
    ensures EventsParse([e])
  {
    forall j | 0 <= j < 1 ensures Actions.FromStr([e][j].a).Ok? {
      assert [e][j] == e;
    }
  }

  lemma TwoParse(e1: Event, e2: Event)
    requires Actions.FromStr(e1.a).Ok? && Actions.FromStr(e2.a).Ok?
    ensures EventsParse([e1, e2])
  {
    var es := [e1, e2];
    forall j | 0 <= j < 2 ensures Actions.FromStr(es[j].a).Ok? {
      if j == 0 {} else {}
    }
  }

  /** The compact output of one history of one event: one line, no padding. */
  lemma CompactOfOne(p: string, e: Event, withColors: bool, withoutDetails: bool)
    requires withColors ==> Actions.FromStr(e.a).Ok?
    ensures withColors ==> Parses([PackageHistory(p, [e])])
    ensures Compact([PackageHistory(p, [e])], withColors, withoutDetails) ==
      [CompactLine(p, e, Widths(|p|, |e.d|, |e.a|, |e.v|), withColors, withoutDetails)]
  {
    var h := PackageHistory(p, [e]);
    var w := Widths(|p|, |e.d|, |e.a|, |e.v|);
    assert h.e[0] == e;
    if withColors {
      OneParses(e);
    }
    MaxLensOfOne(h);
    CompactLinesOfOne(h, w, withColors, withoutDetails);
    assert [e][..0] == [];
    assert CompactEvents(p, [e], w, withColors, withoutDetails) ==
      CompactEvents(p, [], w, withColors, withoutDetails) + [CompactLine(p, e, w, withColors, withoutDetails)];
  }

  /** The rendered compact output of one history of one event, uncoloured. */
  lemma RenderCompactOfOne(p: string, e: Event)
    ensures Render(Compact([PackageHistory(p, [e])], false, false)) ==
      "|" + p + "|" + e.d + "|" + e.a + "|" + e.v + "|" + "\n"
    ensures Render(Compact([PackageHistory(p, [e])], false, true)) == "|" + p + "|" + "\n"
  {
    CompactOfOne(p, e, false, false);
    CompactOfOne(p, e, false, true);
    PadRightExact(p);
    PadRightExact(e.d);
    PadRightExact(e.a);
    PadRightExact(e.v);
    RenderOne(CompactLine(p, e, Widths(|p|, |e.d|, |e.a|, |e.v|), false, false));
    RenderOne(CompactLine(p, e, Widths(|p|, |e.d|, |e.a|, |e.v|), false, true));
  }

  lemma CompactNoColorsExample()
    ensures Render(Compact([PackageHistory("foo", [Event("0.0.2", "2019-08-26 12:00:00", "Upgraded")])], false, false)) ==
      "|" + "foo" + "|" + "2019-08-26 12:00:00" + "|" + "Upgraded" + "|" + "0.0.2" + "|" + "\n"
    ensures Render(Compact(FooInstalled(), false, true)) == "|" + "foo" + "|" + "\n"
  {
    RenderCompactOfOne("foo", Event("0.0.2", "2019-08-26 12:00:00", "Upgraded"));
    RenderCompactOfOne("foo", Ev("0.0.1", "2019-08-26 12:00:00", Installed));
  }

  /** The lines of three events. */
  lemma CompactEventsOfThree(p: string, e1: Event, e2: Event, e3: Event, w: Widths, withColors: bool, withoutDetails: bool)
    requires withColors ==> Actions.FromStr(e1.a).Ok? && Actions.FromStr(e2.a).Ok? && Actions.FromStr(e3.a).Ok?
    ensures withColors ==> EventsParse([e1, e2, e3])
    ensures CompactEvents(p, [e1, e2, e3], w, withColors, withoutDetails) ==
      [CompactLine(p, e1, w, withColors, withoutDetails), CompactLine(p, e2, w, withColors, withoutDetails),
       CompactLine(p, e3, w, withColors, withoutDetails)]
  {
    var es := [e1, e2, e3];
    assert es[..2] == [e1, e2] && [e1, e2][..1] == [e1] && [e1][..0] == [];
    if withColors {
      OneParses(e1);
      TwoParse(e1, e2);
      ThreeParse(e1, e2, e3);
    }
    assert CompactEvents(p, [e1], w, withColors, withoutDetails) ==
      CompactEvents(p, [], w, withColors, withoutDetails) + [CompactLine(p, e1, w, withColors, withoutDetails)];
    assert CompactEvents(p, [e1, e2], w, withColors, withoutDetails) ==
      CompactEvents(p, [e1], w, withColors, withoutDetails) + [CompactLine(p, e2, w, withColors, withoutDetails)];
  }

  /** Three events whose actions parse. */
  lemma ThreeParse(e1: Event, e2: Event, e3: Event)
    requires Actions.FromStr(e1.a).Ok? && Actions.FromStr(e2.a).Ok? && Actions.FromStr(e3.a).Ok?
    ensures EventsParse([e1, e2, e3])
  {
    var es := [e1, e2, e3];
    forall j | 0 <= j < 3 ensures Actions.FromStr(es[j].a).Ok? {
      if j == 0 {} else if j == 1 {} else {}
    }
  }

  /** The compact output of one history of three events. */
  lemma CompactOfThree(h: PackageHistory, withColors: bool, withoutDetails: bool)
    requires |h.e| == 3 && (withColors ==> EventsParse(h.e))
    ensures withColors ==> Parses([h])
    ensures MaxLens([h]).Some?
    ensures var w := MaxLens([h]).value;
      Compact([h], withColors, withoutDetails) ==
        [CompactLine(h.p, h.e[0], w, withColors, withoutDetails), CompactLine(h.p, h.e[1], w, withColors, withoutDetails),
         CompactLine(h.p, h.e[2], w, withColors, withoutDetails)]
  {
    MaxLensOfThree(h);
    var w := MaxLens([h]).value;
    CompactLinesOfOne(h, w, withColors, withoutDetails);
    CompactEventsOfHistory(h, w, withColors, withoutDetails);
  }

  lemma CompactEventsOfHistory(h: PackageHistory, w: Widths, withColors: bool, withoutDetails: bool)
    requires |h.e| == 3 && (withColors ==> EventsParse(h.e))
    ensures CompactEvents(h.p, h.e, w, withColors, withoutDetails) ==
      [CompactLine(h.p, h.e[0], w, withColors, withoutDetails), CompactLine(h.p, h.e[1], w, withColors, withoutDetails),
       CompactLine(h.p, h.e[2], w, withColors, withoutDetails)]
  {
    assert h.e == [h.e[0], h.e[1], h.e[2]];
    assert withColors ==> Actions.FromStr(h.e[0].a).Ok? && Actions.FromStr(h.e[1].a).Ok? && Actions.FromStr(h.e[2].a).Ok?;
    CompactEventsOfThree(h.p, h.e[0], h.e[1], h.e[2], w, withColors, withoutDetails);
  }

  /** The three events of the coloured compact examples. */
  function FooThree(first: Action): PackageHistory {
    PackageHistory("foo", [Ev("0.0.2", "2019-08-26 12:00:00", first),
                           Ev("0.0.1", "2019-08-26 13:00:00", Downgraded),
                           Ev("0.0.1", "2019-08-26 14:00:00", Removed)])
  }

  lemma FooThreeParses(first: Action)
    ensures EventsParse(FooThree(first).e)
    ensures ActionOf(FooThree(first).e[0]) == first
    ensures ActionOf(FooThree(first).e[1]) == Downgraded && ActionOf(FooThree(first).e[2]) == Removed
  {
    EvParses("0.0.2", "2019-08-26 12:00:00", first);
    EvParses("0.0.1", "2019-08-26 13:00:00", Downgraded);
    EvParses("0.0.1", "2019-08-26 14:00:00", Removed);
    var h := FooThree(first);
    ThreeParse(h.e[0], h.e[1], h.e[2]);
    assert h.e == [h.e[0], h.e[1], h.e[2]];
  }

  lemma MaxOfThreeValue(x: nat, y: nat, z: nat)
    ensures MaxOf([x, y, z]) == if x >= y && x >= z then x else if y >= z then y else z
  {
    MaxOfThree(x, y, z);
    MaxOfTwo(x, y);
  }

  /** The widths of the coloured compact example: "Downgraded" is the widest
    * action. */
  lemma FooThreeWidths(first: Action)
    requires first == Upgraded || first == Installed
    ensures MaxLens([FooThree(first)]) == Some(Widths(3, 19, 10, 5))
  {
    var h := FooThree(first);
    MaxLensOfThree(h);
    NameLengthsOfActions();
    assert h.e[0].a == Actions.ToString(first) && h.e[1].a == Actions.ToString(Downgraded) && h.e[2].a == Actions.ToString(Removed);
    assert |h.p| == 3;
    assert |h.e[0].d| == 19 && |h.e[1].d| == 19 && |h.e[2].d| == 19;
    assert |h.e[0].a| <= 9 && |h.e[1].a| == 10 && |h.e[2].a| == 7;
    assert |h.e[0].v| == 5 && |h.e[1].v| == 5 && |h.e[2].v| == 5;
    MaxOfThreeValue(|h.e[0].d|, |h.e[1].d|, |h.e[2].d|);
    MaxOfThreeValue(|h.e[0].a|, |h.e[1].a|, |h.e[2].a|);
    MaxOfThreeValue(|h.e[0].v|, |h.e[1].v|, |h.e[2].v|);
  }

  lemma NameLengthsOfActions()
    ensures |Actions.ToString(Installed)| == 9 && |Actions.ToString(Upgraded)| == 8
    ensures |Actions.ToString(Downgraded)| == 10 && |Actions.ToString(Removed)| == 7
  {
  }

  lemma PadTwo(s: string)
    ensures PadRight(s, |s| + 2) == s + "  "
  {
    assert seq(2, _ => ' ') == "  ";
  }

  lemma PadThree(s: string)
    ensures PadRight(s, |s| + 3) == s + "   "
  {
    assert seq(3, _ => ' ') == "   ";
  }

  /** The text of a compact line whose name, date and version fill their
    * columns. */
  lemma CompactTextFilled(p: string, e: Event, w: Widths)
    requires w.p == |p| && w.d == |e.d| && w.v == |e.v| && |e.a| <= w.a
    ensures CompactText(p, e, w, false) == "|" + p + "|" + e.d + "|" + PadRight(e.a, w.a) + "|" + e.v + "|"
  {
    PadRightExact(p);
    PadRightExact(e.d);
    PadRightExact(e.v);
  }

  /** Each event's line is green, yellow or red by its action, with the action
    * padded to the width of "Downgraded". */
  lemma CompactColoredExample()
    ensures Parses([FooThree(Upgraded)])
    ensures Compact([FooThree(Upgraded)], true, false) ==
      [Line(Some(Green), "|" + "foo" + "|" + "2019-08-26 12:00:00" + "|" + ("Upgraded" + "  ") + "|" + "0.0.2" + "|"),
       Line(Some(Yellow), "|" + "foo" + "|" + "2019-08-26 13:00:00" + "|" + "Downgraded" + "|" + "0.0.1" + "|"),
       Line(Some(Red), "|" + "foo" + "|" + "2019-08-26 14:00:00" + "|" + ("Removed" + "   ") + "|" + "0.0.1" + "|")]
  {
    var h := FooThree(Upgraded);
    FooThreeParses(Upgraded);
    CompactOfThree(h, true, false);
    FooThreeWidths(Upgraded);
    FooThreeTexts();
  }

  /** The texts of the coloured compact example. */
  lemma FooThreeTexts()
    ensures var (h, w) := (FooThree(Upgraded), Widths(3, 19, 10, 5));
      CompactText(h.p, h.e[0], w, false) == "|" + "foo" + "|" + "2019-08-26 12:00:00" + "|" + ("Upgraded" + "  ") + "|" + "0.0.2" + "|" &&
      CompactText(h.p, h.e[1], w, false) == "|" + "foo" + "|" + "2019-08-26 13:00:00" + "|" + "Downgraded" + "|" + "0.0.1" + "|" &&
      CompactText(h.p, h.e[2], w, false) == "|" + "foo" + "|" + "2019-08-26 14:00:00" + "|" + ("Removed" + "   ") + "|" + "0.0.1" + "|"
  {
    var foo, d0, d1, d2 := "foo", "2019-08-26 12:00:00", "2019-08-26 13:00:00", "2019-08-26 14:00:00";
    var w := Widths(|foo|, |d0|, |Actions.ToString(Downgraded)|, |"0.0.1"|);
    NameLengthsOfActions();
    CompactTextFilled(foo, Event("0.0.2", d0, Actions.ToString(Upgraded)), w);
    CompactTextFilled(foo, Event("0.0.1", d1, Actions.ToString(Downgraded)), w);
    CompactTextFilled(foo, Event("0.0.1", d2, Actions.ToString(Removed)), w);
    PadRightExact("Downgraded");
    PadTwo("Upgraded");
    PadThree("Removed");
  }

  /** Without details every event still has its line, "|foo|" in its colour. */
  lemma CompactColoredNoDetailsExample()
    ensures Parses([FooThree(Installed)])
    ensures Compact([FooThree(Installed)], true, true) ==
      [Line(Some(Green), "|" + "foo" + "|"), Line(Some(Yellow), "|" + "foo" + "|"), Line(Some(Red), "|" + "foo" + "|")]
  {
    var h := FooThree(Installed);
    FooThreeParses(Installed);
    CompactOfThree(h, true, true);
    FooThreeWidths(Installed);
    PadRightExact("foo");
  }
}
