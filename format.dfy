// The layout rules of the printers in src/pkghist/format.rs. Output is a
// sequence of lines, each with the colour the terminal is switched to before
// it (none: the default colour) and its text; the escape codes that switch
// and reset the colour, and the newline after each line, are not part of the
// line. `Render` joins the texts of uncoloured output.
module Printers {
  import opened Wrappers
  import Actions
  import Options
  import opened PacmanEvents
  import opened NewestEvents
  import opened Grouping
  import opened History
  import StableSort

  datatype Color = Red | Green | Yellow

  datatype Line = Line(color: Option<Color>, text: string)

  /** What a failed `unwrap` does: the program stops. */
  datatype Panic = UnwrapOnNone

  // ---------------------------------------------------------------- the `unwrap`s

  /** Every event's action string parses (the `parse().unwrap()` of the
    * coloured printers). */
  predicate EventsParse(es: seq<Event>) {
    forall j :: 0 <= j < |es| ==> Actions.FromStr(es[j].a).Ok?
  }

  predicate Parses(hs: seq<PackageHistory>) {
    forall i :: 0 <= i < |hs| ==> EventsParse(hs[i].e)
  }

  /** What `last_action` needs: an event, and actions that parse. */
  predicate PrintableHistory(h: PackageHistory) {
    |h.e| > 0 && EventsParse(h.e)
  }

  predicate Printable(hs: seq<PackageHistory>) {
    forall i :: 0 <= i < |hs| ==> PrintableHistory(hs[i])
  }

  /** `event.a.parse().unwrap()`. */
  function ActionOf(e: Event): (a: Actions.Action)
    requires Actions.FromStr(e.a).Ok?
  {
    Actions.FromStr(e.a).value
  }

  /** `last_action`: the parse of the last event's action. */
  function LastAction(h: PackageHistory): (a: Actions.Action)
    requires PrintableHistory(h)
    ensures Actions.FromStr(h.e[|h.e| - 1].a) == Ok(a)
  {
    ActionOf(h.e[|h.e| - 1])
  }

  /** The histories `run` builds can be printed in colour, and the last action
    * of each is that of the group's newest event. */
  lemma HistoryPrintable(s: seq<PacmanEvent>)
    requires |s| > 0 && ValidDates(s)
    ensures PrintableHistory(HistoryOf(s)) && LastAction(HistoryOf(s)) == NewestOf(s).action
  {
    HistoryParses(s);
    HistoryNewest(s);
  }

  lemma HistoryParses(s: seq<PacmanEvent>)
    requires |s| > 0 && ValidDates(s)
    ensures EventsParse(HistoryOf(s).e)
  {
    var t := StableSort.Sort(Cmp, s);
    SortKeepsEvents(s);
    assert ValidDates(t);
    var h := FromPacmanEvents(t);
    assert h == HistoryOf(s);
    forall j | 0 <= j < |h.e| ensures Actions.FromStr(h.e[j].a).Ok? {
      assert h.e[j] == FromPacmanEvent(t[j]);
    }
  }

  /** Every history `run` prints is printable. */
  lemma HistoriesPrintable(groups: Groups, order: seq<string>, histories: seq<PackageHistory>)
    requires WellFormed(groups) && |histories| == |order|
    requires forall i :: 0 <= i < |order| ==> order[i] in groups && histories[i] == HistoryOf(groups[order[i]])
    ensures Printable(histories)
  {
    forall i | 0 <= i < |histories| ensures PrintableHistory(histories[i]) {
      HistoryPrintable(groups[order[i]]);
    }
  }

  // ---------------------------------------------------------------- colours

  /** The colour of a package's name in plain output. */
  function HeaderColor(h: PackageHistory): (c: Color)
    requires PrintableHistory(h)
    ensures c == Red <==> Actions.IsRemoved(LastAction(h))
    ensures c != Yellow
  {
    if LastAction(h) == Actions.Removed then Red else Green
  }

  /** The name of a package `run` prints is red exactly when the package's
    * newest event removed it. */
  lemma HeaderColorOfHistory(s: seq<PacmanEvent>)
    requires |s| > 0 && ValidDates(s)
    ensures PrintableHistory(HistoryOf(s))
    ensures HeaderColor(HistoryOf(s)) == Red <==> NewestOf(s).action == Actions.Removed
  {
    HistoryPrintable(s);
  }

  /** The colour of an event in plain output: red for a removal, yellow for a
    * downgrade, none otherwise. */
  function PlainEventColor(a: Actions.Action): (c: Option<Color>)
    ensures c == Some(Red) <==> a == Actions.Removed
    ensures c == Some(Yellow) <==> a == Actions.Downgraded
    ensures c != Some(Green)
  {
    match a
    case Removed => Some(Red)
    case Downgraded => Some(Yellow)
    case _ => None
  }

  /** The colour of an event in compact output: as in plain output, but green
    * where plain output has none. */
  function CompactEventColor(a: Actions.Action): (c: Color)
    ensures c == Red <==> a == Actions.Removed
    ensures c == Yellow <==> a == Actions.Downgraded
  {
    match a
    case Removed => Red
    case Downgraded => Yellow
    case _ => Green
  }

  lemma EventColorsAgree(a: Actions.Action)
    ensures CompactEventColor(a) == (match PlainEventColor(a) case Some(c) => c case None => Green)
  {
  }

  // ---------------------------------------------------------------- plain output

  /** The name line of a history. */
  function Header(h: PackageHistory, withColors: bool): (l: Line)
    requires withColors ==> PrintableHistory(h)
  {
    Line(if withColors then Some(HeaderColor(h)) else None, h.p)
  }

  /** The two lines of an event, "  [d] a" and "    v", in one colour. */
  function EventLines(e: Event, color: Option<Color>): (r: seq<Line>) {
    [Line(color, "  [" + e.d + "] " + e.a), Line(color, "    " + e.v)]
  }

  function PlainEvents(es: seq<Event>, withColors: bool): (r: seq<Line>)
    requires withColors ==> EventsParse(es)
    ensures |r| == 2 * |es|
    ensures !withColors ==> forall k :: 0 <= k < |r| ==> r[k].color.None?
    decreases |es|
  {
    if |es| == 0 then []
    else
      var e := es[|es| - 1];
      PlainEvents(es[..|es| - 1], withColors) +
        EventLines(e, if withColors then PlainEventColor(ActionOf(e)) else None)
  }

  function PlainHistory(h: PackageHistory, withColors: bool, withoutDetails: bool): (r: seq<Line>)
    requires withColors ==> PrintableHistory(h)
  {
    [Header(h, withColors)] + if withoutDetails then [] else PlainEvents(h.e, withColors)
  }

  /** What `format_plain` writes. */
  function PlainLines(hs: seq<PackageHistory>, withColors: bool, withoutDetails: bool): (r: seq<Line>)
    requires withColors ==> Printable(hs)
    ensures withoutDetails ==> |r| == |hs|
    ensures !withColors ==> forall k :: 0 <= k < |r| ==> r[k].color.None?
    decreases |hs|
  {
    if |hs| == 0 then []
    else PlainLines(hs[..|hs| - 1], withColors, withoutDetails) + PlainHistory(hs[|hs| - 1], withColors, withoutDetails)
  }

  /** `format_plain`: for each history its name line, then, with details, two
    * lines per event. */
  method FormatPlain(hs: seq<PackageHistory>, withColors: bool, withoutDetails: bool) returns (out: seq<Line>)
    requires withColors ==> Printable(hs)
    ensures out == PlainLines(hs, withColors, withoutDetails)
  {
    out := [];
    var i := 0;
    while i < |hs|
      invariant 0 <= i <= |hs|
      invariant out == PlainLines(hs[..i], withColors, withoutDetails)
    {
      var h := hs[i];
      var header := if withColors then Some(HeaderColor(h)) else None;
      var lines := [Line(header, h.p)];
      if !withoutDetails {
        var events := WritePlainEvents(h.e, withColors);
        lines := lines + events;
      }
      PlainLinesSnoc(hs, i, withColors, withoutDetails);
      out := out + lines;
      i := i + 1;
    }
    assert hs[..|hs|] == hs;
  }

  /** The inner loop of `format_plain`: two lines per event. */
  method WritePlainEvents(es: seq<Event>, withColors: bool) returns (lines: seq<Line>)
    requires withColors ==> EventsParse(es)
    ensures lines == PlainEvents(es, withColors)
  {
    lines := [];
    var j := 0;
    while j < |es|
      invariant 0 <= j <= |es|
      invariant lines == PlainEvents(es[..j], withColors)
    {
      var e := es[j];
      var color := if withColors then PlainEventColor(ActionOf(e)) else None;
      PlainEventsSnoc(es, j, withColors);
      lines := lines + [Line(color, "  [" + e.d + "] " + e.a), Line(color, "    " + e.v)];
      j := j + 1;
    }
    assert es[..|es|] == es;
  }

  lemma PlainEventsSnoc(es: seq<Event>, j: nat, withColors: bool)
    requires j < |es| && (withColors ==> EventsParse(es))
    ensures PlainEvents(es[..j + 1], withColors) ==
      PlainEvents(es[..j], withColors) + EventLines(es[j], if withColors then PlainEventColor(ActionOf(es[j])) else None)
  {
    assert es[..j + 1][..j] == es[..j];
  }

  lemma PlainLinesSnoc(hs: seq<PackageHistory>, i: nat, withColors: bool, withoutDetails: bool)
    requires i < |hs| && (withColors ==> Printable(hs))
    ensures PlainLines(hs[..i + 1], withColors, withoutDetails) ==
      PlainLines(hs[..i], withColors, withoutDetails) + PlainHistory(hs[i], withColors, withoutDetails)
  {
    assert hs[..i + 1][..i] == hs[..i];
  }

  // ---------------------------------------------------------------- plain output: properties

  /** The texts of a sequence of lines. */
  function Texts(ls: seq<Line>): (r: seq<string>)
    ensures |r| == |ls| && forall k :: 0 <= k < |ls| ==> r[k] == ls[k].text
  {
    seq(|ls|, k requires 0 <= k < |ls| => ls[k].text)
  }

  lemma TextsAppend(a: seq<Line>, b: seq<Line>)
    ensures Texts(a + b) == Texts(a) + Texts(b)
  {
  }

  /** `ls` holds two lines per event of `es`: "  [d] a" at an even position and
    * "    v" after it. */
  predicate PlainShape(ls: seq<Line>, es: seq<Event>) {
    |ls| == 2 * |es| &&
    forall j :: 0 <= j < |es| ==>
      ls[2 * j].text == "  [" + es[j].d + "] " + es[j].a && ls[2 * j + 1].text == "    " + es[j].v
  }

  lemma PlainShapeSnoc(ls: seq<Line>, es: seq<Event>, e: Event, c: Option<Color>)
    requires PlainShape(ls, es)
    ensures PlainShape(ls + EventLines(e, c), es + [e])
  {
    var ls' := ls + EventLines(e, c);
    var es' := es + [e];
    forall j | 0 <= j < |es'|
      ensures ls'[2 * j].text == "  [" + es'[j].d + "] " + es'[j].a && ls'[2 * j + 1].text == "    " + es'[j].v
    {
      if j < |es| {
        assert ls'[2 * j] == ls[2 * j] && ls'[2 * j + 1] == ls[2 * j + 1] && es'[j] == es[j];
      }
    }
  }

  /** Each event makes two lines, the date and action, then the version. */
  lemma {:induction false} PlainEventsShape(es: seq<Event>, withColors: bool)
    requires withColors ==> EventsParse(es)
    ensures PlainShape(PlainEvents(es, withColors), es)
    decreases |es|
  {
    if |es| > 0 {
      var n := |es| - 1;
      var e := es[n];
      PlainEventsShape(es[..n], withColors);
      PlainShapeSnoc(PlainEvents(es[..n], withColors), es[..n], e,
                     if withColors then PlainEventColor(ActionOf(e)) else None);
      assert es[..n] + [e] == es;
    }
  }

  /** `b` is `a` without colours: the same texts, no colour. */
  predicate Restyled(a: seq<Line>, b: seq<Line>) {
    |a| == |b| && forall k :: 0 <= k < |a| ==> a[k].text == b[k].text && b[k].color.None?
  }

  lemma RestyledAppend(a1: seq<Line>, b1: seq<Line>, a2: seq<Line>, b2: seq<Line>)
    requires Restyled(a1, b1) && Restyled(a2, b2)
    ensures Restyled(a1 + a2, b1 + b2)
  {
    forall k | 0 <= k < |a1 + a2| ensures (a1 + a2)[k].text == (b1 + b2)[k].text && (b1 + b2)[k].color.None? {
      if k < |a1| {
        assert (a1 + a2)[k] == a1[k] && (b1 + b2)[k] == b1[k];
      } else {
        assert (a1 + a2)[k] == a2[k - |a1|] && (b1 + b2)[k] == b2[k - |a1|];
      }
    }
  }

  /** Without colours the event lines are those with colours, uncoloured. */
  lemma {:induction false} PlainEventsColors(es: seq<Event>)
    requires EventsParse(es)
    ensures Restyled(PlainEvents(es, true), PlainEvents(es, false))
    decreases |es|
  {
    if |es| > 0 {
      var n := |es| - 1;
      var e := es[n];
      PlainEventsColors(es[..n]);
      RestyledAppend(PlainEvents(es[..n], true), PlainEvents(es[..n], false),
                     EventLines(e, PlainEventColor(ActionOf(e))), EventLines(e, None));
    }
  }

  /** The lines of the plain output: one name line per history, and with
    * details two more per event. */
  lemma {:induction false} PlainLinesCount(hs: seq<PackageHistory>, withColors: bool, withoutDetails: bool)
    requires withColors ==> Printable(hs)
    ensures |PlainLines(hs, withColors, withoutDetails)| ==
      |hs| + if withoutDetails then 0 else 2 * |AllEvents(hs)|
    decreases |hs|
  {
    if |hs| > 0 {
      var n := |hs| - 1;
      PlainLinesCount(hs[..n], withColors, withoutDetails);
      PlainEventsShape(hs[n].e, withColors);
    }
  }

  /** Without details the plain output is the names, one per line. */
  lemma {:induction false} PlainWithoutDetails(hs: seq<PackageHistory>, withColors: bool)
    requires withColors ==> Printable(hs)
    ensures Texts(PlainLines(hs, withColors, true)) == Names(hs)
    decreases |hs|
  {
    if |hs| > 0 {
      var n := |hs| - 1;
      PlainWithoutDetails(hs[..n], withColors);
      TextsAppend(PlainLines(hs[..n], withColors, true), PlainHistory(hs[n], withColors, true));
      assert Names(hs) == Names(hs[..n]) + [hs[n].p];
    }
  }

  /** Without colours the plain output is that with colours, uncoloured. */
  lemma {:induction false} PlainColors(hs: seq<PackageHistory>, withoutDetails: bool)
    requires Printable(hs)
    ensures Restyled(PlainLines(hs, true, withoutDetails), PlainLines(hs, false, withoutDetails))
    decreases |hs|
  {
    if |hs| > 0 {
      var n := |hs| - 1;
      var h := hs[n];
      PlainColors(hs[..n], withoutDetails);
      PlainHistoryColors(h, withoutDetails);
      RestyledAppend(PlainLines(hs[..n], true, withoutDetails), PlainLines(hs[..n], false, withoutDetails),
                     PlainHistory(h, true, withoutDetails), PlainHistory(h, false, withoutDetails));
    }
  }

  lemma PlainHistoryColors(h: PackageHistory, withoutDetails: bool)
    requires PrintableHistory(h)
    ensures Restyled(PlainHistory(h, true, withoutDetails), PlainHistory(h, false, withoutDetails))
  {
    var ev: seq<Line> := [];
    if !withoutDetails {
      PlainEventsColors(h.e);
      RestyledAppend([Header(h, true)], [Header(h, false)], PlainEvents(h.e, true), PlainEvents(h.e, false));
    } else {
      RestyledAppend([Header(h, true)], [Header(h, false)], ev, ev);
    }
  }

  /** The names of a sequence of histories. */
  function Names(hs: seq<PackageHistory>): (r: seq<string>)
    ensures |r| == |hs| && forall i :: 0 <= i < |hs| ==> r[i] == hs[i].p
  {
    seq(|hs|, i requires 0 <= i < |hs| => hs[i].p)
  }

  // ---------------------------------------------------------------- column widths

  /** The greatest of some lengths (`max`, which needs one). */
  function MaxOf(xs: seq<nat>): (m: nat)
    requires |xs| > 0
    ensures m in xs
    ensures forall i :: 0 <= i < |xs| ==> xs[i] <= m
    decreases |xs|
  {
    if |xs| == 1 then xs[0]
    else
      var m := MaxOf(xs[..|xs| - 1]);
      if xs[|xs| - 1] > m then xs[|xs| - 1] else m
  }

  /** The events of all histories, in order (the `flat_map`). */
  function AllEvents(hs: seq<PackageHistory>): (r: seq<Event>)
    decreases |hs|
  {
    if |hs| == 0 then [] else AllEvents(hs[..|hs| - 1]) + hs[|hs| - 1].e
  }

  /** An event is among all events exactly when some history has it. */
  lemma {:induction false} AllEventsMembers(hs: seq<PackageHistory>, e: Event)
    ensures e in AllEvents(hs) <==> exists i :: 0 <= i < |hs| && e in hs[i].e
    decreases |hs|
  {
    if |hs| > 0 {
      var n := |hs| - 1;
      AllEventsMembers(hs[..n], e);
      if e in AllEvents(hs[..n]) {
        var i :| 0 <= i < n && e in hs[..n][i].e;
        assert e in hs[i].e;
      }
      if exists i :: 0 <= i < |hs| && e in hs[i].e {
        var i :| 0 <= i < |hs| && e in hs[i].e;
        if i < n {
          assert e in hs[..n][i].e;
        }
      }
    }
  }

  datatype Widths = Widths(p: nat, d: nat, a: nat, v: nat)

  /** Every name and every event field fits its column. */
  predicate Fits(hs: seq<PackageHistory>, w: Widths) {
    (forall i :: 0 <= i < |hs| ==> |hs[i].p| <= w.p) &&
    (forall e :: e in AllEvents(hs) ==> |e.d| <= w.d && |e.a| <= w.a && |e.v| <= w.v)
  }

  /** No column is wider than its widest entry. */
  predicate Attained(hs: seq<PackageHistory>, w: Widths) {
    (exists i :: 0 <= i < |hs| && |hs[i].p| == w.p) &&
    (exists e :: e in AllEvents(hs) && |e.d| == w.d) &&
    (exists e :: e in AllEvents(hs) && |e.a| == w.a) &&
    (exists e :: e in AllEvents(hs) && |e.v| == w.v)
  }

  function NameLengths(hs: seq<PackageHistory>): (r: seq<nat>)
    ensures |r| == |hs| && forall i :: 0 <= i < |hs| ==> r[i] == |hs[i].p|
  {
    seq(|hs|, i requires 0 <= i < |hs| => |hs[i].p|)
  }

  function DateLengths(es: seq<Event>): (r: seq<nat>)
    ensures |r| == |es| && forall i :: 0 <= i < |es| ==> r[i] == |es[i].d|
  {
    seq(|es|, i requires 0 <= i < |es| => |es[i].d|)
  }

  function ActionLengths(es: seq<Event>): (r: seq<nat>)
    ensures |r| == |es| && forall i :: 0 <= i < |es| ==> r[i] == |es[i].a|
  {
    seq(|es|, i requires 0 <= i < |es| => |es[i].a|)
  }

  function VersionLengths(es: seq<Event>): (r: seq<nat>)
    ensures |r| == |es| && forall i :: 0 <= i < |es| ==> r[i] == |es[i].v|
  {
    seq(|es|, i requires 0 <= i < |es| => |es[i].v|)
  }

  /** `max_lens`: the widest name and the widest date, action and version of
    * any event. Its `unwrap`s need a history and an event: without, none. */
  function MaxLens(hs: seq<PackageHistory>): (r: Option<Widths>)
    ensures r.None? <==> |AllEvents(hs)| == 0
    ensures r.Some? ==> Fits(hs, r.value) && Attained(hs, r.value)
  {
    var es := AllEvents(hs);
    if |hs| == 0 || |es| == 0 then None
    else
      var pm := MaxOf(NameLengths(hs));
      var dm := MaxOf(DateLengths(es));
      var am := MaxOf(ActionLengths(es));
      var vm := MaxOf(VersionLengths(es));
      NamesFit(hs, pm);
      FieldsFit(es, dm, am, vm);
      Some(Widths(pm, dm, am, vm))
  }

  lemma NamesFit(hs: seq<PackageHistory>, pm: nat)
    requires |hs| > 0 && pm == MaxOf(NameLengths(hs))
    ensures forall i :: 0 <= i < |hs| ==> |hs[i].p| <= pm
    ensures exists i :: 0 <= i < |hs| && |hs[i].p| == pm
  {
    assert forall i :: 0 <= i < |hs| ==> NameLengths(hs)[i] == |hs[i].p|;
  }

  lemma FieldsFit(es: seq<Event>, dm: nat, am: nat, vm: nat)
    requires |es| > 0
    requires dm == MaxOf(DateLengths(es)) && am == MaxOf(ActionLengths(es)) && vm == MaxOf(VersionLengths(es))
    ensures forall e :: e in es ==> |e.d| <= dm && |e.a| <= am && |e.v| <= vm
    ensures (exists e :: e in es && |e.d| == dm) && (exists e :: e in es && |e.a| == am) && (exists e :: e in es && |e.v| == vm)
  {
    forall e | e in es ensures |e.d| <= dm && |e.a| <= am && |e.v| <= vm {
      var j :| 0 <= j < |es| && es[j] == e;
      assert DateLengths(es)[j] == |e.d| && ActionLengths(es)[j] == |e.a| && VersionLengths(es)[j] == |e.v|;
    }
    var jd :| 0 <= jd < |es| && DateLengths(es)[jd] == dm;
    var ja :| 0 <= ja < |es| && ActionLengths(es)[ja] == am;
    var jv :| 0 <= jv < |es| && VersionLengths(es)[jv] == vm;
    assert es[jd] in es && es[ja] in es && es[jv] in es;
  }

  // ---------------------------------------------------------------- compact output

  /** `{:<w$}`: the string, padded with spaces on the right to at least `w`
    * characters. */
  function PadRight(s: string, w: nat): (r: string)
    ensures |r| == if |s| < w then w else |s|
    ensures r[..|s|] == s
    ensures forall k :: |s| <= k < |r| ==> r[k] == ' '
  {
    if |s| < w then s + seq(w - |s|, _ => ' ') else s
  }

  /** The text of a compact line: "|p|" without details, "|p|d|a|v|" with,
    * each field padded to its column. */
  function CompactText(p: string, e: Event, w: Widths, withoutDetails: bool): string {
    if withoutDetails then "|" + PadRight(p, w.p) + "|"
    else "|" + PadRight(p, w.p) + "|" + PadRight(e.d, w.d) + "|" + PadRight(e.a, w.a) + "|" + PadRight(e.v, w.v) + "|"
  }

  function CompactLine(p: string, e: Event, w: Widths, withColors: bool, withoutDetails: bool): Line
    requires withColors ==> Actions.FromStr(e.a).Ok?
  {
    Line(if withColors then Some(CompactEventColor(ActionOf(e))) else None, CompactText(p, e, w, withoutDetails))
  }

  function CompactEvents(p: string, es: seq<Event>, w: Widths, withColors: bool, withoutDetails: bool): (r: seq<Line>)
    requires withColors ==> EventsParse(es)
    decreases |es|
  {
    if |es| == 0 then []
    else
      CompactEvents(p, es[..|es| - 1], w, withColors, withoutDetails) +
        [CompactLine(p, es[|es| - 1], w, withColors, withoutDetails)]
  }

  /** The loops of `format_compact`: one line per event. */
  function CompactLines(hs: seq<PackageHistory>, w: Widths, withColors: bool, withoutDetails: bool): (r: seq<Line>)
    requires withColors ==> Parses(hs)
    decreases |hs|
  {
    if |hs| == 0 then []
    else
      var h := hs[|hs| - 1];
      CompactLines(hs[..|hs| - 1], w, withColors, withoutDetails) + CompactEvents(h.p, h.e, w, withColors, withoutDetails)
  }

  /** `format_compact` as written: the widths first, whose `unwrap`s panic
    * when there is no history or no event. */
  function CompactAsWritten(hs: seq<PackageHistory>, withColors: bool, withoutDetails: bool): (r: Result<seq<Line>, Panic>)
    requires withColors ==> Parses(hs)
    ensures r.Err? <==> |AllEvents(hs)| == 0
  {
    match MaxLens(hs)
    case None => Err(UnwrapOnNone)
    case Some(w) => Ok(CompactLines(hs, w, withColors, withoutDetails))
  }

  /** `format_compact` as intended: with no event there is nothing to print. */
  function Compact(hs: seq<PackageHistory>, withColors: bool, withoutDetails: bool): (r: seq<Line>)
    requires withColors ==> Parses(hs)
    ensures |r| == |AllEvents(hs)|
  {
    match MaxLens(hs)
    case None => []
    case Some(w) =>
      CompactLinesCount(hs, w, withColors, withoutDetails);
      CompactLines(hs, w, withColors, withoutDetails)
  }

  /** `format_compact`, with the widths computed only when there is an event
    * to print. */
  method FormatCompact(hs: seq<PackageHistory>, withColors: bool, withoutDetails: bool) returns (out: seq<Line>)
    requires withColors ==> Parses(hs)
    ensures out == Compact(hs, withColors, withoutDetails)
  {
    out := [];
    var widths := MaxLens(hs);
    if widths.None? {
      return;
    }
    var w := widths.value;
    var i := 0;
    while i < |hs|
      invariant 0 <= i <= |hs|
      invariant out == CompactLines(hs[..i], w, withColors, withoutDetails)
    {
      var h := hs[i];
      var lines := WriteCompactEvents(h.p, h.e, w, withColors, withoutDetails);
      CompactLinesSnoc(hs, i, w, withColors, withoutDetails);
      out := out + lines;
      i := i + 1;
    }
    assert hs[..|hs|] == hs;
  }

  /** The inner loop of `format_compact`: one line per event. */
  method WriteCompactEvents(p: string, es: seq<Event>, w: Widths, withColors: bool, withoutDetails: bool)
    returns (lines: seq<Line>)
    requires withColors ==> EventsParse(es)
    ensures lines == CompactEvents(p, es, w, withColors, withoutDetails)
  {
    lines := [];
    var j := 0;
    while j < |es|
      invariant 0 <= j <= |es|
      invariant lines == CompactEvents(p, es[..j], w, withColors, withoutDetails)
    {
      var e := es[j];
      var color := if withColors then Some(CompactEventColor(ActionOf(e))) else None;
      var text := if withoutDetails then "|" + PadRight(p, w.p) + "|"
        else "|" + PadRight(p, w.p) + "|" + PadRight(e.d, w.d) + "|" + PadRight(e.a, w.a) + "|" + PadRight(e.v, w.v) + "|";
      CompactEventsSnoc(p, es, j, w, withColors, withoutDetails);
      lines := lines + [Line(color, text)];
      j := j + 1;
    }
    assert es[..|es|] == es;
  }

  lemma CompactEventsSnoc(p: string, es: seq<Event>, j: nat, w: Widths, withColors: bool, withoutDetails: bool)
    requires j < |es| && (withColors ==> EventsParse(es))
    ensures CompactEvents(p, es[..j + 1], w, withColors, withoutDetails) ==
      CompactEvents(p, es[..j], w, withColors, withoutDetails) + [CompactLine(p, es[j], w, withColors, withoutDetails)]
  {
    assert es[..j + 1][..j] == es[..j];
  }

  lemma CompactLinesSnoc(hs: seq<PackageHistory>, i: nat, w: Widths, withColors: bool, withoutDetails: bool)
    requires i < |hs| && (withColors ==> Parses(hs))
    ensures CompactLines(hs[..i + 1], w, withColors, withoutDetails) ==
      CompactLines(hs[..i], w, withColors, withoutDetails) + CompactEvents(hs[i].p, hs[i].e, w, withColors, withoutDetails)
  {
    assert hs[..i + 1][..i] == hs[..i];
  }

  // ---------------------------------------------------------------- compact output: properties

  /** One compact line per event, with or without details. */
  lemma {:induction false} CompactLinesCount(hs: seq<PackageHistory>, w: Widths, withColors: bool, withoutDetails: bool)
    requires withColors ==> Parses(hs)
    ensures |CompactLines(hs, w, withColors, withoutDetails)| == |AllEvents(hs)|
    decreases |hs|
  {
    if |hs| > 0 {
      var n := |hs| - 1;
      CompactLinesCount(hs[..n], w, withColors, withoutDetails);
      CompactEventsCount(hs[n].p, hs[n].e, w, withColors, withoutDetails);
    }
  }

  lemma {:induction false} CompactEventsCount(p: string, es: seq<Event>, w: Widths, withColors: bool, withoutDetails: bool)
    requires withColors ==> EventsParse(es)
    ensures |CompactEvents(p, es, w, withColors, withoutDetails)| == |es|
    decreases |es|
  {
    if |es| > 0 {
      CompactEventsCount(p, es[..|es| - 1], w, withColors, withoutDetails);
    }
  }

  /** The columns of a compact line: its length and the positions of its
    * bars are those of the widths, whatever the entries. */
  predicate Aligned(t: string, w: Widths) {
    |t| == w.p + w.d + w.a + w.v + 5 &&
    t[0] == '|' && t[w.p + 1] == '|' && t[w.p + w.d + 2] == '|' &&
    t[w.p + w.d + w.a + 3] == '|' && t[w.p + w.d + w.a + w.v + 4] == '|'
  }

  /** Four fields between five bars: the bars sit after each field, and each
    * field is the slice between two bars. */
  lemma Bars(a: string, b: string, c: string, d: string)
    ensures var t := "|" + a + "|" + b + "|" + c + "|" + d + "|";
      |t| == |a| + |b| + |c| + |d| + 5 &&
      t[0] == '|' && t[|a| + 1] == '|' && t[|a| + |b| + 2] == '|' &&
      t[|a| + |b| + |c| + 3] == '|' && t[|a| + |b| + |c| + |d| + 4] == '|' &&
      t[1..|a| + 1] == a && t[|a| + 2..|a| + |b| + 2] == b &&
      t[|a| + |b| + 3..|a| + |b| + |c| + 3] == c && t[|a| + |b| + |c| + 4..|a| + |b| + |c| + |d| + 4] == d
  {
    var t1 := "|" + a + "|";
    var t2 := t1 + b + "|";
    var t3 := t2 + c + "|";
    var t := t3 + d + "|";
    SliceBetween("|", a, "|");
    SliceBetween(t1, b, "|");
    SliceBetween(t2, c, "|");
    SliceBetween(t3, d, "|");
    PrefixSlice(t1, b + "|", 1, |a| + 1);
    assert t2 == t1 + (b + "|");
    PrefixSlice(t2, c + "|", 1, |a| + 1);
    PrefixSlice(t2, c + "|", |a| + 2, |a| + |b| + 2);
    assert t3 == t2 + (c + "|");
    PrefixSlice(t3, d + "|", 1, |a| + 1);
    PrefixSlice(t3, d + "|", |a| + 2, |a| + |b| + 2);
    PrefixSlice(t3, d + "|", |a| + |b| + 3, |a| + |b| + |c| + 3);
    assert t == t3 + (d + "|");
  }

  lemma SliceBetween(x: string, y: string, z: string)
    ensures (x + y + z)[|x|..|x| + |y|] == y
  {
  }

  lemma PrefixSlice(u: string, v: string, i: nat, j: nat)
    requires i <= j <= |u|
    ensures (u + v)[i..j] == u[i..j]
  {
  }

  /** A compact line whose entries fit their columns holds each entry, padded,
    * between bars at the columns' fixed positions. */
  lemma CompactTextShape(p: string, e: Event, w: Widths)
    requires |p| <= w.p && |e.d| <= w.d && |e.a| <= w.a && |e.v| <= w.v
    ensures Aligned(CompactText(p, e, w, false), w)
    ensures var t := CompactText(p, e, w, false);
      t[1..w.p + 1] == PadRight(p, w.p) && t[w.p + 2..w.p + w.d + 2] == PadRight(e.d, w.d) &&
      t[w.p + w.d + 3..w.p + w.d + w.a + 3] == PadRight(e.a, w.a) &&
      t[w.p + w.d + w.a + 4..w.p + w.d + w.a + w.v + 4] == PadRight(e.v, w.v)
    ensures var t := CompactText(p, e, w, true);
      |t| == w.p + 2 && t[0] == '|' && t[1..w.p + 1] == PadRight(p, w.p) && t[w.p + 1] == '|'
  {
    Bars(PadRight(p, w.p), PadRight(e.d, w.d), PadRight(e.a, w.a), PadRight(e.v, w.v));
    SliceBetween("|", PadRight(p, w.p), "|");
  }

  /** Every line of `ls` has the columns of `w`. */
  predicate AllAligned(ls: seq<Line>, w: Widths) {
    forall k :: 0 <= k < |ls| ==> Aligned(ls[k].text, w)
  }

  lemma AllAlignedAppend(a: seq<Line>, b: seq<Line>, w: Widths)
    requires AllAligned(a, w) && AllAligned(b, w)
    ensures AllAligned(a + b, w)
  {
    forall k | 0 <= k < |a + b| ensures Aligned((a + b)[k].text, w) {
      if k < |a| {
        assert (a + b)[k] == a[k];
      } else {
        assert (a + b)[k] == b[k - |a|];
      }
    }
  }

  /** Every field of every event fits its column. */
  predicate EventsFit(es: seq<Event>, w: Widths) {
    forall e :: e in es ==> |e.d| <= w.d && |e.a| <= w.a && |e.v| <= w.v
  }

  lemma {:induction false} CompactEventsAligned(p: string, es: seq<Event>, w: Widths, withColors: bool)
    requires withColors ==> EventsParse(es)
    requires |p| <= w.p && EventsFit(es, w)
    ensures AllAligned(CompactEvents(p, es, w, withColors, false), w)
    decreases |es|
  {
    if |es| > 0 {
      var n := |es| - 1;
      assert forall e :: e in es[..n] ==> e in es;
      CompactEventsAligned(p, es[..n], w, withColors);
      CompactTextShape(p, es[n], w);
      AllAlignedAppend(CompactEvents(p, es[..n], w, withColors, false), [CompactLine(p, es[n], w, withColors, false)], w);
    }
  }

  lemma {:induction false} CompactLinesAligned(hs: seq<PackageHistory>, w: Widths, withColors: bool)
    requires withColors ==> Parses(hs)
    requires Fits(hs, w)
    ensures AllAligned(CompactLines(hs, w, withColors, false), w)
    decreases |hs|
  {
    if |hs| > 0 {
      var n := |hs| - 1;
      assert AllEvents(hs) == AllEvents(hs[..n]) + hs[n].e;
      assert Fits(hs[..n], w);
      assert EventsFit(hs[n].e, w);
      CompactLinesAligned(hs[..n], w, withColors);
      CompactEventsAligned(hs[n].p, hs[n].e, w, withColors);
      AllAlignedAppend(CompactLines(hs[..n], w, withColors, false), CompactEvents(hs[n].p, hs[n].e, w, withColors, false), w);
    }
  }

  /** Every line of the compact output has the same columns, those of
    * `max_lens`. */
  lemma CompactAligned(hs: seq<PackageHistory>, withColors: bool)
    requires withColors ==> Parses(hs)
    requires |AllEvents(hs)| > 0
    ensures AllAligned(Compact(hs, withColors, false), MaxLens(hs).value)
  {
    CompactLinesAligned(hs, MaxLens(hs).value, withColors);
  }

  /** The package of each event, in the order of all events. */
  function EventNames(hs: seq<PackageHistory>): (r: seq<string>)
    decreases |hs|
  {
    if |hs| == 0 then []
    else
      var h := hs[|hs| - 1];
      EventNames(hs[..|hs| - 1]) + seq(|h.e|, _ => h.p)
  }

  lemma {:induction false} CompactEventsNames(p: string, es: seq<Event>, w: Widths, withColors: bool)
    requires withColors ==> EventsParse(es)
    ensures Texts(CompactEvents(p, es, w, withColors, true)) == seq(|es|, _ => "|" + PadRight(p, w.p) + "|")
    decreases |es|
  {
    if |es| > 0 {
      var n := |es| - 1;
      CompactEventsNames(p, es[..n], w, withColors);
      TextsAppend(CompactEvents(p, es[..n], w, withColors, true), [CompactLine(p, es[n], w, withColors, true)]);
    }
  }

  /** Without details the compact output has one "|p|" line per event, not per
    * package: each line is the name of its event's package. */
  lemma {:induction false} CompactWithoutDetails(hs: seq<PackageHistory>, w: Widths, withColors: bool)
    requires withColors ==> Parses(hs)
    ensures |EventNames(hs)| == |AllEvents(hs)|
    ensures Texts(CompactLines(hs, w, withColors, true)) ==
      seq(|EventNames(hs)|, k requires 0 <= k < |EventNames(hs)| => "|" + PadRight(EventNames(hs)[k], w.p) + "|")
    decreases |hs|
  {
    if |hs| > 0 {
      var n := |hs| - 1;
      var h := hs[n];
      CompactWithoutDetails(hs[..n], w, withColors);
      CompactEventsNames(h.p, h.e, w, withColors);
      TextsAppend(CompactLines(hs[..n], w, withColors, true), CompactEvents(h.p, h.e, w, withColors, true));
    }
  }

  /** Without colours the compact output is that with colours, uncoloured. */
  lemma {:induction false} CompactEventsColors(p: string, es: seq<Event>, w: Widths, withoutDetails: bool)
    requires EventsParse(es)
    ensures Restyled(CompactEvents(p, es, w, true, withoutDetails), CompactEvents(p, es, w, false, withoutDetails))
    decreases |es|
  {
    if |es| > 0 {
      var n := |es| - 1;
      CompactEventsColors(p, es[..n], w, withoutDetails);
      RestyledAppend(CompactEvents(p, es[..n], w, true, withoutDetails), CompactEvents(p, es[..n], w, false, withoutDetails),
                     [CompactLine(p, es[n], w, true, withoutDetails)], [CompactLine(p, es[n], w, false, withoutDetails)]);
    }
  }

  lemma {:induction false} CompactColors(hs: seq<PackageHistory>, w: Widths, withoutDetails: bool)
    requires Parses(hs)
    ensures Restyled(CompactLines(hs, w, true, withoutDetails), CompactLines(hs, w, false, withoutDetails))
    decreases |hs|
  {
    if |hs| > 0 {
      var n := |hs| - 1;
      var h := hs[n];
      CompactColors(hs[..n], w, withoutDetails);
      CompactEventsColors(h.p, h.e, w, withoutDetails);
      RestyledAppend(CompactLines(hs[..n], w, true, withoutDetails), CompactLines(hs[..n], w, false, withoutDetails),
                     CompactEvents(h.p, h.e, w, true, withoutDetails), CompactEvents(h.p, h.e, w, false, withoutDetails));
    }
  }

  // ---------------------------------------------------------------- the empty output

  /** As written, the compact printer panics on an empty list of histories,
    * which a filter matching no package produces; the plain printer prints
    * nothing. */
  lemma CompactPanicsOnNoHistories(withColors: bool, withoutDetails: bool)
    ensures CompactAsWritten([], withColors, withoutDetails) == Err(UnwrapOnNone)
    ensures PlainLines([], withColors, withoutDetails) == []
  {
  }

  /** Where the widths exist, the printer as written and as intended agree;
    * where they do not, the intended one prints what the loops print with any
    * widths: nothing. */
  lemma CompactAsIntended(hs: seq<PackageHistory>, w: Widths, withColors: bool, withoutDetails: bool)
    requires withColors ==> Parses(hs)
    ensures CompactAsWritten(hs, withColors, withoutDetails).Ok? ==>
      CompactAsWritten(hs, withColors, withoutDetails).value == Compact(hs, withColors, withoutDetails)
    ensures MaxLens(hs).None? ==>
      Compact(hs, withColors, withoutDetails) == CompactLines(hs, w, withColors, withoutDetails) == []
  {
    CompactLinesCount(hs, w, withColors, withoutDetails);
  }

  // ---------------------------------------------------------------- `Printer`

  /** `Printer::print` for the plain and compact formats; JSON output is not
    * part of this model. */
  method Print(f: Options.Format, hs: seq<PackageHistory>) returns (out: Option<seq<Line>>)
    requires f.Plain? && f.withColors ==> Printable(hs)
    requires f.Compact? && f.withColors ==> Parses(hs)
    ensures out.None? <==> f.Json?
    ensures f.Plain? ==> out == Some(PlainLines(hs, f.withColors, f.withoutDetails))
    ensures f.Compact? ==> out == Some(Compact(hs, f.withColors, f.withoutDetails))
  {
    match f
    case Plain(withColors, withoutDetails) =>
      var lines := FormatPlain(hs, withColors, withoutDetails);
      out := Some(lines);
    case Compact(withColors, withoutDetails) =>
      var lines := FormatCompact(hs, withColors, withoutDetails);
      out := Some(lines);
    case Json(_) =>
      out := None;
  }

  /** `Printer::print` as written: the compact branch goes through the
    * `unwrap`s of `max_lens`, so it panics exactly when there is no event;
    * otherwise it prints what `Print` prints. */
  function PrintAsWritten(f: Options.Format, hs: seq<PackageHistory>): (r: Result<Option<seq<Line>>, Panic>)
    requires f.Plain? && f.withColors ==> Printable(hs)
    requires f.Compact? && f.withColors ==> Parses(hs)
    ensures r.Err? <==> f.Compact? && |AllEvents(hs)| == 0
    ensures r.Ok? ==> (r.value.None? <==> f.Json?)
    ensures r.Ok? && f.Plain? ==> r.value == Some(PlainLines(hs, f.withColors, f.withoutDetails))
    ensures r.Ok? && f.Compact? ==> r.value == Some(Compact(hs, f.withColors, f.withoutDetails))
  {
    match f
    case Plain(withColors, withoutDetails) => Ok(Some(PlainLines(hs, withColors, withoutDetails)))
    case Compact(withColors, withoutDetails) =>
      (match CompactAsWritten(hs, withColors, withoutDetails)
       case Err(e) => Err(e)
       case Ok(lines) => Ok(Some(lines)))
    case Json(_) => Ok(None)
  }

  /** The dispatch as written panics on an empty list in the compact format,
    * where the corrected `Print` prints nothing. */
  lemma PrintPanicsOnNoHistories(withColors: bool, withoutDetails: bool)
    ensures PrintAsWritten(Options.Compact(withColors, withoutDetails), []) == Err(UnwrapOnNone)
    ensures Compact([], withColors, withoutDetails) == []
  {
    CompactPanicsOnNoHistories(withColors, withoutDetails);
  }

  // ---------------------------------------------------------------- examples

  /** The uncoloured output: each line's text and a newline. */
  function Render(ls: seq<Line>): (r: string)
    decreases |ls|
  {
    if |ls| == 0 then "" else Render(ls[..|ls| - 1]) + ls[|ls| - 1].text + "\n"
  }

  /** Rendering distributes over the lines: each line is written on its own. */
  lemma {:induction false} RenderAppend(a: seq<Line>, b: seq<Line>)
    ensures Render(a + b) == Render(a) + Render(b)
    decreases |b|
  {
    if |b| > 0 {
      var n := |b| - 1;
      assert (a + b)[..|a + b| - 1] == a + b[..n];
      RenderAppend(a, b[..n]);
    } else {
      assert a + b == a;
    }
  }
}
