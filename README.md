# pkghist, modelled in Dafny

pkghist reads the pacman log of an Arch Linux system and prints the history of
its packages. Each line the log parser recognises becomes an event. An event has
a date, an action (installed, reinstalled, upgraded, downgraded, removed), a
package name, the version it started from and, for upgrades and downgrades, the
version it went to.

The program then does five things:

1. It groups the events by package, keeping only the packages the filters name.
2. It drops packages by the state their latest event leaves them in.
3. It ranks the packages by the date of their last event, or in the older code
   path by name.
4. It can cut that ranking to a window of the first or last *n* packages.
5. It prints each package's history in a plain or a compact layout, optionally
   coloured.

This project models that pipeline and proves what each step promises. The
modules follow the source files:

- **Helpers.** `Wrappers`, `Chars` (ASCII lower-casing and `u32` parsing),
  `Orderings`, `DateTimes` (timestamps as integer fields with chronological
  order and the `YYYY-MM-DD HH:MM:SS` rendering) and `StableSort` (the stable
  sort Rust's `sort`/`sorted_by` perform, as a function and as an in-place
  insertion sort on an array).
- **`src/pacman/action.rs`** is `Actions`.
- **`src/pacman/mod.rs`** is split four ways:
  - `PacmanEvents`: the event and its order;
  - `LineParser`: a hand-written scanner for the line grammar, under the
    regular expression's backtracking choices;
  - `LineGrammar`: the round trip from well-formed lines back to their fields;
  - `LogFile`: the line fold of `from_file`.
- **`src/pacman/group.rs`** is `Grouping`.
- **`src/pacman/filter.rs`** is `Filtering`.
- **`src/pacman/newest.rs`** is `NewestEvents` and **`src/pacman/latest.rs`** is
  `LatestEvents`.
- **`src/pacman/range.rs`** is `Windowing`.
- **`src/pkghist/mod.rs`** is `History`; **`src/pkghist.rs`** is
  `LegacyHistory`.
- **`src/pkghist/format.rs`** is `Printers`. The output is a sequence of lines,
  each a text and an optional colour, with no escape codes.
- **`src/opt/mod.rs`** is `Options`, **`src/opt/cli.rs`** is `ArgValidators`,
  **`src/config.rs`** is `LegacyConfig`, **`src/opt.rs`** is `DepthOption` and
  **`src/log.rs`** is `Logging`.
- **The unit tests' expected values** are proved as lemmas in `EventOrderExamples`,
  `LineExamples`, `FilterExamples`, `RangeExamples` and `PrinterExamples`.

How the model relates to the code:

- Where the code loops over and mutates a vector, a map or a writer, the model
  is a `method` with a loop. Its `ensures` ties the result to a specification
  function, and the function's properties are proved as lemmas. The loops
  modelled this way are:
  - the fold of `from_file`;
  - the grouping loop;
  - the removal loops of the state filters;
  - the in-place sorts of `newest`/`latest`;
  - the `select_*` maps;
  - the ranking, sorting and copying of `range`;
  - the history loops of both `run` functions;
  - the writer loops of the two printers.
- The in-place `sort()` of `newest`/`latest` works on an `array`.
- Hash-map iteration order is an arbitrary choice (`:|`) in the model. The
  results are proved not to depend on it:
  - `Windowing.WindowDetermined`;
  - `History.RankedDetermined`;
  - `LegacyHistory.LegacyRunDeterministic`.

Decisions where the code leaves a choice or is inconsistent:

- `Action` in `src/pacman/action.rs` has no `Downgraded` variant. The line grammar
  (`src/pacman/mod.rs:24`), its tests and the printers (`src/pkghist/format.rs:51`)
  use one, so the model has it as a fifth variant with the keyword "downgraded".
- `group_relevant` is called from `src/pacman/filter.rs:31` with a list of package
  names. Relevance is therefore `is_relevant_package` of `src/pacman/filter.rs:81-83`:
  every package without filters, otherwise exact membership.
- `src/opt/mod.rs` builds its filters as regular expressions, but the code shown
  never uses them to select packages. The model keeps them as the strings given.

## Model

| member | source | states |
|---|---|---|
| Chars.Lower | src/pacman/action.rs:33 | lower-casing keeps the length and maps each character to its lower-case form (ASCII letters only) |
| Chars.LowerIdempotent | src/pacman/action.rs:33 | lower-casing twice is lower-casing once |
| Chars.ParseU32 | src/opt/cli.rs:108 | `str::parse::<u32>`: an optional '+', then digits, value at most 2^32-1; a parse implies a non-empty input |
| Chars.ParseU32RoundTrip | src/opt/cli.rs:108 | every number up to 2^32-1 rendered in decimal parses back to itself |
| Chars.ParseU32RejectsNonDigit | src/opt/cli.rs:116 | a string containing a character other than a digit or '+' does not parse |
| Chars.DecimalOfNatToString | src/opt/cli.rs:108 | the decimal value of the rendering of n is n |
| Orderings.CompareInt | src/pacman/mod.rs:65 | the comparison of two integers is Less, Equal or Greater exactly as they compare |
| Orderings.CompareStrings | src/pacman/mod.rs:67 | `String::cmp`: Equal exactly for equal strings, and a proper prefix comes before the longer string; CompareStringsFlip and CompareStringsTransitive give the rest of the order |
| Orderings.CompareStringsEqual | src/pacman/mod.rs:67 | string comparison returns Equal exactly for equal strings |
| Orderings.CompareStringsFlip | src/pacman/mod.rs:67 | swapping the strings flips the comparison |
| Orderings.CompareStringsTransitive | src/pacman/mod.rs:67 | string Less is transitive |
| DateTimes.DaysInMonth | src/pacman/mod.rs:104-113 | a month has 28 to 31 days |
| DateTimes.Compare | src/pacman/mod.rs:65 | chronological comparison is Equal exactly for equal times |
| DateTimes.CompareByRank | src/pacman/mod.rs:65 | on real dates the field-by-field comparison agrees with comparing seconds since a fixed epoch |
| DateTimes.CompareFlip | src/pacman/mod.rs:65 | swapping two times flips their comparison |
| DateTimes.CompareTransitive | src/pacman/mod.rs:65 | earlier-than is transitive |
| DateTimes.ToString | src/pkghist/mod.rs:73 | the date renders as 19 characters |
| DateTimes.ToStringRoundTrip | src/pkghist/mod.rs:73 | the "YYYY-MM-DD HH:MM:SS" rendering reads back as the same time |
| DateTimes.ToStringInjective | src/pkghist/mod.rs:73 | distinct times render differently |
| Actions.FromStr | src/pacman/action.rs:32-40 | a parse succeeds exactly when the lower-cased input is a keyword, and yields that keyword's action; otherwise InvalidAction |
| Actions.IsRemoved | src/pacman/action.rs:14-16 | true exactly for the action whose log keyword is "removed" |
| Actions.IsInstalled | src/pacman/action.rs:18-20 | true exactly for installed, reinstalled, upgraded and downgraded |
| Actions.ToString | src/pacman/action.rs:23-27 | the `Debug` name: the keyword with its first letter in upper case; FromStrRoundTrip parses it back |
| Actions.LowerOfName | src/pacman/action.rs:23-27 | the lower-cased display name of an action is its keyword |
| Actions.IsInstalledExactly | src/pacman/action.rs:14-20 | installed means installed, reinstalled, upgraded or downgraded, and is exactly not removed |
| Actions.FromStrRoundTrip | src/pacman/action.rs:23-38 | parsing an action's display name gives the action back |
| Actions.ToStringInjective | src/pacman/action.rs:23-27 | different actions display differently |
| Actions.FromStrIgnoresCase | src/pacman/action.rs:33 | the parse of a string is the parse of its lower-case form |
| Actions.FromStrKeyword | src/pacman/action.rs:34-37 | each keyword parses to its own action (tests 61-83) |
| Actions.FromStrRejectsFoo | src/pacman/action.rs:85-89 | "foo" is InvalidAction |
| StableSort.Insert | src/pacman/newest.rs:16 | inserting adds one element |
| StableSort.Sort | src/pacman/newest.rs:16 | sorting keeps the length; with SortSorted, SortPermutes and SortStable it is a sorted permutation that keeps every set of ties in input order |
| StableSort.InsertPermutes | src/pacman/newest.rs:16 | insertion adds exactly the new element to the multiset |
| StableSort.SortPermutes | src/pacman/newest.rs:16 | the sort is a permutation of its input |
| StableSort.InsertSorted | src/pacman/newest.rs:16 | inserting into a sorted sequence keeps it sorted |
| StableSort.SortSorted | src/pacman/newest.rs:16 | under a total preorder the result is sorted |
| StableSort.SortedUnique | src/pacman/newest.rs:16 | a sorted permutation of a strictly ascending sequence is that sequence |
| StableSort.SortOfStrict | src/pacman/mod.rs:163-215 | sorting any rearrangement of a strictly ascending sequence gives it back |
| StableSort.PermByIndex | src/pacman/mod.rs:183-215 | a sequence picking the elements of another at distinct positions is a permutation of it |
| StableSort.SortLastIsMaximum | src/pacman/newest.rs:15-18 | the last element of the sorted sequence is at least every input element |
| StableSort.LastMax | src/pacman/newest.rs:15-18 | the index of the last maximal element: every element is at most it, every later one strictly below |
| StableSort.SortLastIsLastMax | src/pacman/newest.rs:16 | stability: of equal maxima, the one last in the input ends the sorted sequence |
| StableSort.TiesMembers | src/pkghist/mod.rs:44 | the ties of `x` in a sequence are exactly its elements comparing Equal to `x` |
| StableSort.InsertTies | src/pkghist/mod.rs:44 | inserting an element keeps the ties of every `x` in order and adds the new element after them when it is one |
| StableSort.SortStable | src/pkghist/mod.rs:44 | stability: for every `x`, the elements comparing Equal to `x` leave the sort in the order they came in |
| StableSort.InsertLast | src/pacman/newest.rs:16 | one in-place insertion step leaves the array as the insertion of `a[i]` into the sorted prefix, the rest untouched |
| StableSort.SortPrefix | src/pacman/newest.rs:16 | sorting one more element inserts it into the sorted prefix |
| StableSort.SortInPlace | src/pacman/newest.rs:16 | the in-place `sort()` leaves the array equal to the stable sort of its old contents |
| PacmanEvents.PrintableVersion | src/pacman/mod.rs:53-59 | the target version when there is one, otherwise the source version |
| PacmanEvents.Cmp | src/pacman/mod.rs:62-70 | `Ord::cmp` is Equal exactly when package and date agree; CmpDifferentPackages, CmpSamePackage and CmpTotalPreorder give name first, then date, as a total preorder |
| PacmanEvents.CmpEqual | src/pacman/mod.rs:62-70 | two events compare Equal exactly when package and date agree |
| PacmanEvents.CmpFlip | src/pacman/mod.rs:62-70 | swapping two events flips the comparison |
| PacmanEvents.CmpDifferentPackages | src/pacman/mod.rs:66-67 | events of different packages compare by name, whatever their dates, and are never Equal |
| PacmanEvents.CmpSamePackage | src/pacman/mod.rs:64-65 | events of one package compare by date |
| PacmanEvents.CmpLessTransitive | src/pacman/mod.rs:62-70 | Less is transitive |
| PacmanEvents.LeTotal | src/pacman/mod.rs:62-70 | any two events are ordered one way or the other |
| PacmanEvents.LeTransitive | src/pacman/mod.rs:62-70 | not-greater is transitive |
| PacmanEvents.CmpTotalPreorder | src/pacman/mod.rs:62-70 | the event order is a total preorder, as `Ord` requires |
| EventOrderExamples.StrictChain | src/pacman/mod.rs:163-215 | each event before the next makes every earlier event before every later one |
| EventOrderExamples.SortThree | src/pacman/mod.rs:163-180 | three ascending events shuffled as `[p2, p3, p1]` sort back into order |
| EventOrderExamples.SortEight | src/pacman/mod.rs:183-215 | eight ascending events sort back from the test's shuffle |
| EventOrderExamples.NvidiaByDate | src/pacman/mod.rs:163-180 | the three nvidia events sort by date |
| EventOrderExamples.SameMinuteKeepsLogOrder | src/pacman/mod.rs:62-70 | two nvidia events of the same minute compare Equal, and the sort leaves them in either log order |
| EventOrderExamples.IdeaAndLinuxByPackageThenDate | src/pacman/mod.rs:183-215 | the intellij and linux events sort by package first, then by date |
| Search.LastMaximal | src/pacman/mod.rs:24 | nothing after the position a greedy search finds qualifies, and nothing at all when it finds none |
| Search.LastIs | src/pacman/mod.rs:24 | a qualifying position with none after it is what the greedy search finds |
| Search.FirstMinimal | src/pacman/mod.rs:24 | nothing before the position a lazy search finds qualifies, and nothing at all when it finds none |
| Search.FirstIs | src/pacman/mod.rs:24 | a qualifying position with none before it is what the lazy search finds |
| LineParser.ParseDate | src/pacman/mod.rs:104-113 | a parsed timestamp is a real date, and a minute-precision one has seconds 0 |
| LineParser.ParseDateMinute | src/pacman/mod.rs:105 | a "YYYY-MM-DD HH:MM" timestamp gets seconds 0 and renders as itself followed by ":00" |
| LineParser.ParseDateOffset | src/pacman/mod.rs:108-111 | an offset timestamp keeps its written wall-clock fields: it renders as its date and time without the offset |
| LineParser.ParseDateIgnoresOffset | src/pacman/mod.rs:110 | two timestamps differing only in the offset give the same time |
| LineParser.Match | src/pacman/mod.rs:24 | a match's spans fit the line and its tail is what the scanner finds at the tag's close |
| LineParser.Captured | src/pacman/mod.rs:84-94 | the captured event has a real date and non-empty package, source and target; the only failure is the date panic |
| LineParser.FromStr | src/pacman/mod.rs:81-101 | the result is InvalidFormat exactly when the grammar does not match; an event always has a real date and non-empty fields |
| LineParser.ToCloseIs | src/pacman/mod.rs:24 | the greedy `to` ends at the last ')' before the next newline |
| LineParser.FirstCloseSound | src/pacman/mod.rs:24 | the lazy `from` stops where the rest of the pattern matches, before the next newline |
| LineParser.FirstCloseMinimal | src/pacman/mod.rs:24 | the lazy `from` stops at the first such place |
| LineParser.FirstCloseIs | src/pacman/mod.rs:24 | the first place where the rest matches is where the lazy `from` stops |
| LineParser.LastPackageEndSound | src/pacman/mod.rs:24 | the greedy package ends where the rest of the line matches |
| LineParser.LastPackageEndMaximal | src/pacman/mod.rs:24 | the greedy package ends at the last such place |
| LineParser.LastPackageEndIs | src/pacman/mod.rs:24 | the last place where the rest matches is where the greedy package ends |
| LineParser.LastBracketEndSound | src/pacman/mod.rs:24 | the greedy `\[.+\]` closes where the rest of the line matches |
| LineParser.LastBracketEndMaximal | src/pacman/mod.rs:24 | the greedy tag closes at the last such place |
| LineParser.LastBracketEndIs | src/pacman/mod.rs:24 | the last place where the rest matches is where the greedy tag closes |
| LineParser.ActionAtSound | src/pacman/mod.rs:24 | the keyword alternation picks a keyword written at the position, and fails exactly when none is |
| LineParser.KeywordAtUnique | src/pacman/mod.rs:24 | no keyword is a prefix of another, so the written keyword is the one the alternation picks |
| LineGrammar.LineMatch | src/pacman/mod.rs:24 | the match of a well-formed line has the spans of its date, tag, keyword, package, source and target |
| LineGrammar.CapturedIs | src/pacman/mod.rs:84-94 | the event of captures holding given fields is those fields with the converted date, or the date panic |
| LineGrammar.FromStrOfMatch | src/pacman/mod.rs:81-101 | `from_str` returns the event of the match |
| LineGrammar.FromStrLine | src/pacman/mod.rs:81-113 | round trip: a well-formed line parses back to the fields it was built from, the date converted by `parse_date` |
| LineGrammar.MatchedKeyword | src/pacman/mod.rs:24 | every match has a lower-case keyword right after the tag's ']' and one whitespace character |
| LineGrammar.RejectedWithoutKeyword | src/pacman/mod.rs:82-100 | a line with none of the five lower-case keywords is InvalidFormat, not a panic |
| LineExamples.LibvaUpgraded | src/pacman/mod.rs:218-233 | the libva upgrade line gives from "2.4.1-1" and to Some("2.5.0-1"), seconds 0 |
| LineExamples.AnsibleInstalled | src/pacman/mod.rs:236-251 | the ansible install line gives to None |
| LineExamples.MpsYoutubeDowngraded | src/pacman/mod.rs:254-270 | the mps-youtube downgrade line gives Downgraded, "0.2.8-2" to "0.2.8-1" |
| LineExamples.AnsibleReinstalled | src/pacman/mod.rs:273-288 | the reinstall line gives Reinstalled and to None |
| LineExamples.GnomeCommonRemoved | src/pacman/mod.rs:291-306 | the removal line gives Removed and to None |
| LineExamples.YayOffsetInstalled | src/pacman/mod.rs:150-161 | the offset timestamp 20:25:18+0200 is kept as 20:25:18 |
| LineExamples.NotMatchingRejected | src/pacman/mod.rs:309-312 | "[2019-07-04 14:05] I AM NOT MATCHING" is InvalidFormat |
| LogFile.Parsed | src/pacman/mod.rs:118-133 | the fold's result is never longer than the log |
| LogFile.Fold | src/pacman/mod.rs:118-133 | the fold loop pushes exactly the events of the lines that parse, in order |
| LogFile.FromLines | src/pacman/mod.rs:115-135 | `from_file` on the lines read is that fold with the line parser |
| LogFile.ParsedSnoc | src/pacman/mod.rs:121-128 | one more line adds its event when it parses and nothing otherwise |
| LogFile.ParsedAppend | src/pacman/mod.rs:118-133 | the fold over two pieces of a log is the concatenation of the two folds |
| LogFile.ParsedLine | src/pacman/mod.rs:122-127 | a single line contributes its event or nothing |
| LogFile.NoiseDropped | src/pacman/mod.rs:127 | removing a line that does not parse changes nothing |
| LogFile.ParsedMembers | src/pacman/mod.rs:118-133 | an event is in the result exactly when some line parses to it |
| LogFile.ValidLinesExtracted | src/pacman/mod.rs:321-343 | noise followed by good lines gives one event per good line, in order |
| LogFile.NothingParsed | src/pacman/mod.rs:346-360 | a log with no parsable line gives nothing |
| LogFile.EverythingParsed | src/pacman/mod.rs:118-133 | a log of parsable lines gives one event per line, in order |
| Grouping.IsRelevantPackage | src/pacman/filter.rs:81-83 | relevant exactly when there is no filter or one filter is the whole package name; GroupKeys says the groups are exactly these packages |
| Grouping.EventsOf | src/pacman/group.rs:17-22 | a package's events are at most the log's and all of that package |
| Grouping.Relevant | src/pacman/group.rs:16 | the relevant events are at most the log's |
| Grouping.GroupRelevant | src/pacman/group.rs:13-31 | the loop builds exactly the map from each relevant package to its events in log order |
| Grouping.GroupsSnocElsewhere | src/pacman/group.rs:15-29 | one more event leaves the other packages' groups unchanged |
| Grouping.GroupsSnocIrrelevant | src/pacman/group.rs:16 | an irrelevant event changes nothing |
| Grouping.GroupsSnocAppend | src/pacman/group.rs:17-22 | a further event of a grouped package is appended to its group |
| Grouping.GroupsSnocNew | src/pacman/group.rs:24-26 | the first event of a relevant package starts a group of one |
| Grouping.GroupKeys | src/pacman/group.rs:22-26 | the keys are exactly the relevant packages occurring in the log |
| Grouping.EventsOfMembers | src/pacman/group.rs:17-22 | an event is in a package's events exactly when it is in the log with that name |
| Grouping.GroupContents | src/pacman/group.rs:17-27 | every group is non-empty, of a relevant package, and holds only log events of that package |
| Grouping.EventGrouped | src/pacman/group.rs:15-16 | every event of a relevant package is in its package's group |
| Grouping.IrrelevantDropped | src/pacman/group.rs:16 | an event of an irrelevant package is in no group |
| Grouping.EventsOfAppend | src/pacman/group.rs:17-22 | grouping keeps log order across two pieces of a log |
| Grouping.EventsOfSinglePackage | src/pacman/group.rs:17-22 | a log of one package groups into itself, unchanged |
| Grouping.GroupsTotal | src/pacman/group.rs:15-28 | the groups together hold exactly as many events as the log has relevant events |
| Filtering.GroupsNonEmpty | src/pacman/group.rs:24-26 | every group `group_relevant` builds has an event |
| Filtering.DroppedLeavesKept | src/pacman/filter.rs:32-43 | removing the packages whose latest event does not match leaves the kept ones with their events |
| Filtering.RemoveUnless | src/pacman/filter.rs:32-43 | the removal loop over the clone leaves exactly the kept groups |
| Filtering.WithoutInstalled | src/pacman/filter.rs:27-45 | the result is the relevant packages whose latest event is a removal, with their events as grouped |
| Filtering.WithoutRemoved | src/pacman/filter.rs:47-65 | the result is the relevant packages whose latest event is not a removal, with their events as grouped |
| Filtering.FilterPackages | src/pacman/filter.rs:67-78 | `removed_only` gives `without_installed`, else `!with_removed` gives `without_removed`, else the plain grouping |
| Filtering.KeptExactly | src/pacman/filter.rs:34-42 | a package is kept exactly when the event at its latest position is or is not a removal |
| Filtering.KeptPartition | src/pacman/filter.rs:36 | the two filters' key sets are disjoint, together cover the grouping, and keep each group unchanged |
| Filtering.KeptWithoutRemovals | src/pacman/filter.rs:47-65 | a log without removals loses nothing to `without_removed` |
| FilterExamples.DistinctSingletons | src/pacman/filter.rs:99-118 | without filters, events of distinct packages group one event each |
| FilterExamples.ThreeFiltered | src/pacman/filter.rs:145-170 | of three one-event packages, the removed one is kept by `without_installed`, the others by `without_removed` |
| FilterExamples.ThreeGroups | src/pacman/filter.rs:145-170 | three events of different packages group into three groups of one event |
| FilterExamples.ThreeKept | src/pacman/filter.rs:145-170 | of three one-event groups, a state filter keeps the removed one or the other two |
| FilterExamples.KeptSingletons | src/pacman/filter.rs:27-65 | with one event per package, a package is kept exactly when that event is or is not a removal |
| FilterExamples.ShouldRemoveInstalled | src/pacman/filter.rs:172-194 | `without_installed` keeps only "no-longer-used" |
| FilterExamples.ShouldKeepInstalled | src/pacman/filter.rs:196-217 | `without_removed` keeps "some-package" and "another-package" |
| FilterExamples.WholeNamesOnly | src/pacman/filter.rs:81-83 | no filters select everything; filters select whole names, so "linux" does not select "linux-firmware" (tests 219-230) |
| FilterExamples.NamedPackagesFiltered | src/pacman/filter.rs:121-143 | filtering by "bash" and "linux" keeps those two of linux, linux-firmware and bash |
| NewestEvents.LatestIndex | src/pacman/newest.rs:15-18 | the position of the last maximal event |
| NewestEvents.NewestOf | src/pacman/newest.rs:15-18 | the newest event is the event at that position |
| NewestEvents.NewestOfUnique | src/pacman/newest.rs:16 | only one position is the latest |
| NewestEvents.NewestOfMaximum | src/pacman/newest.rs:15-18 | the newest event is one of the events and at least every one of them |
| NewestEvents.NewestOfSingleton | src/pacman/newest.rs:40-61 | a group of one event has that event as its newest |
| NewestEvents.Newest | src/pacman/newest.rs:15-18 | needs an event; leaves the vector stably sorted, a permutation of its old contents, and returns its last element, the newest event |
| NewestEvents.SelectNewest | src/pacman/newest.rs:21-30 | the same keys, each mapped to its group's newest event |
| LatestEvents.Latest | src/pacman/latest.rs:13-16 | needs an event; leaves the vector sorted and permuted, returns its last element, the last of the maximal events of the old contents |
| LatestEvents.SelectLatest | src/pacman/latest.rs:19-28 | the same keys, each mapped to its group's latest event |
| Windowing.RankCmpEqual | src/pacman/range.rs:13-26 | two ranking entries compare Equal exactly when equal |
| Windowing.RankCmpFlip | src/pacman/range.rs:13-26 | swapping entries flips the comparison |
| Windowing.RankCmpLessTransitive | src/pacman/range.rs:13-26 | ranking Less is transitive |
| Windowing.RankCmpTotalPreorder | src/pacman/range.rs:13-26 | the ranking comparator is a total preorder |
| Windowing.Take | src/pacman/range.rs:29-30 | `take(n)` gives the first min(n, length) elements |
| Windowing.Reverse | src/pacman/range.rs:30 | `rev()` gives the elements back to front |
| Windowing.ReverseTake | src/pacman/range.rs:30 | the first n of the reversed names are the last n names, reversed |
| Windowing.RankedDistinct | src/pacman/range.rs:25 | each package appears in the ranking once |
| Windowing.SortKeepsRanked | src/pacman/range.rs:13-24 | sorting the entries keeps them the map's entries and sorts them |
| Windowing.StrictRanking | src/pacman/range.rs:18-22 | sorted entries of distinct packages are strictly ascending: the name breaks date ties |
| Windowing.RankEntries | src/pacman/range.rs:13-17 | one entry per package with the date of its last stored event |
| Windowing.SortEntries | src/pacman/range.rs:18-24 | the sort of the entries by (date, name) |
| Windowing.Restrict | src/pacman/range.rs:34-41 | the copied groups are exactly the selected packages, their event vectors unchanged |
| Windowing.Range | src/pacman/range.rs:9-42 | the result is a window: a subset of the groups, unchanged; all without a direction; otherwise min(n, packages) of them, each ranked before (forwards) or after (backwards) every package left out |
| Windowing.ForwardsWindow | src/pacman/range.rs:29 | the first n ranked names select the forwards window |
| Windowing.BackwardsWindow | src/pacman/range.rs:30 | the first n of the reversed names select the backwards window |
| Windowing.AllWindow | src/pacman/range.rs:31 | no direction keeps every package |
| Windowing.SliceOrder | src/pacman/range.rs:29-30 | a package in a prefix of the ranking is ranked before every package after it, and a suffix after every package before it |
| Windowing.RankedAntisymmetric | src/pacman/range.rs:18-22 | no package is ranked before a package ranked before it |
| Windowing.WindowDetermined | src/pacman/range.rs:9-42 | the window depends only on the map and the direction, not on the map's iteration order |
| Windowing.WideWindowIsAll | src/pacman/range.rs:28-41 | a window at least as large as the map is the whole map |
| RangeExamples.OldestLeftOut | src/pacman/range.rs:30 | a package ranked before all others is left out of any backwards window that leaves something out |
| RangeExamples.LastTwoOfThree | src/pacman/range.rs:30 | of three packages the last two are the two ranked after the first |
| RangeExamples.GroupThree | src/pacman/range.rs:54-100 | the test log groups into its three packages with their events |
| RangeExamples.ShouldGetLastNPackages | src/pacman/range.rs:102-115 | `Backwards{2}` on the test data keeps "another-package" and "no-longer-used" |
| History.FromPacmanEvent | src/pkghist/mod.rs:70-76 | v is the printable version, d the 19-character date, a the action's name, which parses back to the action |
| History.FromPacmanEventDate | src/pkghist/mod.rs:73 | the record's date string reads back as the event's date |
| History.FromPacmanEvents | src/pkghist/mod.rs:90-97 | needs an event; one record per event in the same order, named after the first event's package |
| History.HistoryOf | src/pkghist/mod.rs:43-45 | a group's history has one record per event |
| History.SortKeepsEvents | src/pkghist/mod.rs:44 | sorting a group keeps exactly its events |
| History.SortedByDate | src/pkghist/mod.rs:44 | a sorted group of one package is in date order |
| History.SameDateKeepsLogOrder | src/pkghist/mod.rs:44 | `events.sort()` keeps the events sharing a package and date in log order, and those are exactly the group's events with that package and date |
| History.HistoryName | src/pkghist/mod.rs:95 | a group of one package's history is named after that package |
| History.HistoryRecords | src/pkghist/mod.rs:43-45 | a history holds the record of every event of its group and no other record |
| History.HistoryNewest | src/pkghist/mod.rs:44-45 | the last record of a history is that of the group's newest event |
| History.Histories | src/pkghist/mod.rs:29-47 | one history per group, named after it and made of its sorted events, in ascending (date of last stored event, name) order |
| History.RankedNames | src/pkghist/mod.rs:29-41 | the sorted names list every package once, each ranked before the next |
| History.HistoriesInOrder | src/pkghist/mod.rs:43-47 | the loop pushes each visited group's history in the visiting order |
| History.SortedHistory | src/pkghist/mod.rs:44-45 | one step: the group's events sorted in place and converted, named after the package |
| History.InOrder | src/pkghist/mod.rs:43-47 | one history per visited name, that group's |
| History.InOrderSnoc | src/pkghist/mod.rs:46 | visiting one more group appends its history |
| History.InOrderAt | src/pkghist/mod.rs:43-47 | the history at each position is that of the group visited there, named after it |
| History.GroupHistory | src/pkghist/mod.rs:44-45 | a group's history is `from_pacman_events` of its sorted events, named after the group |
| History.FilteredWellFormed | src/pkghist/mod.rs:25 | what the state filters keep of the groups of a log is well formed |
| History.Run | src/pkghist/mod.rs:25-47 | one history per filtered group, each its sorted events, ordered by (date of last stored event, name) |
| History.RankedStrict | src/pacman/range.rs:18-22 | the ranking is irreflexive and has no two packages each before the other |
| History.RankedUnique | src/pkghist/mod.rs:29-41 | two orders of the same packages, each ascending in the ranking, are equal |
| History.RankedDetermined | src/pkghist/mod.rs:29-47 | the histories `run` prints depend only on the groups, not on the map's iteration order |
| LegacyHistory.ByNameTotalPreorder | src/pkghist.rs:33 | comparing histories by name is a total preorder |
| LegacyHistory.VisitGroups | src/pkghist.rs:28-32 | the loop visits every group once and pushes its sorted history |
| LegacyHistory.SortByName | src/pkghist.rs:33 | `sort_by` is the stable sort by name |
| LegacyHistory.LegacyRun | src/pkghist.rs:22-33 | the result is the histories in some visiting order of the groups, sorted by name |
| LegacyHistory.InOrderNames | src/pkghist.rs:28-32 | the histories carry the visiting order as their names |
| LegacyHistory.SortByNameAscending | src/pkghist.rs:33 | sorting histories of distinct names makes the names strictly ascending and keeps the histories |
| LegacyHistory.LegacyOrder | src/pkghist.rs:28-33 | one history per group, each the history of its group, with strictly ascending names |
| LegacyHistory.LegacyEach | src/pkghist.rs:28-32 | every result history is the sorted history of the group it is named after |
| LegacyHistory.LegacyCover | src/pkghist.rs:28-32 | every group has a history in the result |
| LegacyHistory.AscendingUnique | src/pkghist.rs:33 | two strictly ascending sequences of the same names are equal |
| LegacyHistory.LegacyRunDeterministic | src/pkghist.rs:28-33 | any two visiting orders give the same result |
| LegacyHistory.LegacyKeys | src/pkghist.rs:28-33 | the names of the result are exactly the keys |
| LegacyHistory.SameNamesSame | src/pkghist.rs:53-64 | histories that are each their group's and carry the same names are equal |
| Printers.HistoryPrintable | src/pkghist/format.rs:162-165 | a history `run` builds has a last action that parses, and it is that of the group's newest event |
| Printers.LastAction | src/pkghist/format.rs:162-165 | the last record's action string parses to the result; HistoryPrintable says that for a history `run` builds it is the action of the group's newest event |
| Printers.HistoriesPrintable | src/pkghist/format.rs:49 | every history `run` prints has actions that parse |
| Printers.HeaderColor | src/pkghist/format.rs:33-36 | the name is red exactly when the last action is a removal, otherwise green, never yellow |
| Printers.HeaderColorOfHistory | src/pkghist/format.rs:33-36 | the printed name is red exactly when the group's newest event removed the package |
| Printers.PlainEventColor | src/pkghist/format.rs:49-55 | red for a removal, yellow for a downgrade, no colour otherwise |
| Printers.CompactEventColor | src/pkghist/format.rs:95-103 | red for a removal, yellow for a downgrade, green otherwise |
| Printers.EventColorsAgree | src/pkghist/format.rs:119-127 | the compact colour is the plain one, with green where plain output has none |
| Printers.FormatPlain | src/pkghist/format.rs:24-81 | the writer loop writes exactly the plain lines |
| Printers.WritePlainEvents | src/pkghist/format.rs:47-77 | the inner loop writes exactly two lines per event |
| Printers.PlainEventsShape | src/pkghist/format.rs:69-75 | each event gives "  [d] a" then "    v" |
| Printers.PlainEventsColors | src/pkghist/format.rs:56-75 | uncoloured event lines are the coloured ones without colour |
| Printers.PlainLinesCount | src/pkghist/format.rs:30-79 | one name line per history and, with details, two more per event |
| Printers.PlainLines | src/pkghist/format.rs:24-81 | the plain output: without details one line per history; without colours no line is coloured |
| Printers.PlainWithoutDetails | src/pkghist/format.rs:44-46 | without details the output is the names, one per line |
| Printers.PlainColors | src/pkghist/format.rs:31-45 | uncoloured output is coloured output without colours (tests 303-343) |
| Printers.MaxOf | src/pkghist/format.rs:154-158 | `max` of some lengths is one of them and at least each |
| Printers.AllEventsMembers | src/pkghist/format.rs:155 | the `flat_map` holds exactly the events of the histories |
| Printers.MaxLens | src/pkghist/format.rs:153-160 | none exactly when there is no event; otherwise every name and field fits its column and each column is as wide as its widest entry |
| Printers.PadRight | src/pkghist/format.rs:107 | `{:<w$}` keeps the string and pads it with spaces to at least w characters |
| Printers.CompactAsWritten | src/pkghist/format.rs:83-151 | as written, the printer fails (an `unwrap` on None) exactly when there is no event |
| Printers.Compact | src/pkghist/format.rs:83-151 | the intended compact output: one line per event, so nothing when there is no event (the Findings row's corrected half) |
| Printers.FormatCompact | src/pkghist/format.rs:83-151 | the writer loops write exactly the intended compact lines |
| Printers.WriteCompactEvents | src/pkghist/format.rs:91-148 | the inner loop writes exactly one line per event |
| Printers.CompactLinesCount | src/pkghist/format.rs:90-149 | one compact line per event, with or without details |
| Printers.CompactTextShape | src/pkghist/format.rs:129-140 | a detailed line holds each field, padded to its column, between bars at fixed positions; without details the line is the padded name between two bars |
| Printers.CompactAligned | src/pkghist/format.rs:129-140 | every detailed line has the column positions of `max_lens` |
| Printers.CompactWithoutDetails | src/pkghist/format.rs:93-116 | without details there is one line per event, not per package, each the padded name of its event's package between two bars (tests 404-461) |
| Printers.CompactColors | src/pkghist/format.rs:92-128 | uncoloured compact output is the coloured one without colours |
| Printers.CompactPanicsOnNoHistories | src/pkghist/format.rs:89 | as written, an empty history list is an `unwrap` failure, while the plain printer prints nothing |
| Printers.CompactAsIntended | src/pkghist/format.rs:83-160 | where the widths exist the two printers agree; where they do not, the intended one prints nothing |
| Printers.Print | src/pkghist/format.rs:175-195 | plain goes to the plain printer and compact to the corrected compact printer, which prints nothing where `print` as written panics (Findings); JSON is outside the model |
| Printers.PrintAsWritten | src/pkghist/format.rs:175-195 | `print` as written: it panics exactly in the compact format with no event, and otherwise gives what `Print` gives |
| Printers.PrintPanicsOnNoHistories | src/pkghist/format.rs:89 | as written, `print` in the compact format panics on an empty history list, where the corrected printer prints nothing |
| Printers.RenderAppend | src/pkghist/format.rs:37-75 | each line is written on its own |
| PrinterExamples.MaxLensExample | src/pkghist/format.rs:463-502 | the widths of the test histories are (7, 19, 9, 14) |
| PrinterExamples.LastActionExamples | src/pkghist/format.rs:504-545 | the last action is that of the last event: Removed, then Upgraded |
| PrinterExamples.PlainNoColorsExample | src/pkghist/format.rs:303-343 | the uncoloured output of "foo", with and without details |
| PrinterExamples.PlainColoredNoDetailsExample | src/pkghist/format.rs:282-301 | coloured without details, the installed "foo" is a green name |
| PrinterExamples.PlainColoredExample | src/pkghist/format.rs:246-280 | a red name, the upgrade uncoloured, the downgrade yellow, the removal red |
| PrinterExamples.CompactNoColorsExample | src/pkghist/format.rs:383-402 | the uncoloured compact line of foo's upgrade holds name, date, action and version between bars; without details the name alone |
| PrinterExamples.FooThreeWidths | src/pkghist/format.rs:345-381 | the widths of the coloured compact example: "Downgraded" is the widest action |
| PrinterExamples.CompactColoredExample | src/pkghist/format.rs:345-381 | green, yellow and red compact lines, actions padded to 10 characters |
| PrinterExamples.CompactColoredNoDetailsExample | src/pkghist/format.rs:404-440 | three coloured name lines for foo, one per event |
| ArgValidators.ValidateGt0 | src/opt/cli.rs:107-118 | Ok exactly when the input parses as a u32 above 0; 0 gives "limit must be greater than 0", a non-number "Please provide a positive number" |
| ArgValidators.ValidateGt0AcceptsPositive | src/opt/cli.rs:110-111 | every positive u32 in decimal is accepted |
| ArgValidators.ValidateGt0RejectsZero | src/opt/cli.rs:112-113 | "0" gets the not-positive message |
| ArgValidators.ValidateGt0RejectsNonNumber | src/opt/cli.rs:116 | a string with a non-digit that is not '+' gets the not-a-number message |
| ArgValidators.ValidateGt0Examples | src/opt/cli.rs:133-148 | "123" passes; "notanumber" and "0" fail with their messages |
| ArgValidators.ParseDateArg | src/opt/cli.rs:121 | a parsed "YYYY-MM-DD HH:MM" is a real date with seconds 0 |
| ArgValidators.ValidateDate | src/opt/cli.rs:120-127 | Ok exactly when the date parses, otherwise the format message |
| ArgValidators.ParseDateArgRoundTrip | src/opt/cli.rs:120-127 | every real date at minute precision, written "YYYY-MM-DD HH:MM", is accepted and read back as itself |
| ArgValidators.ValidateDateExamples | src/opt/cli.rs:150-160 | "2019-10-02 12:30" passes, "20191002 1230" does not |
| ArgValidators.AfterArgExample | src/opt/mod.rs:161-166 | "2019-01-01 12:00" is noon on 1 January 2019 |
| Options.FromFirst | src/opt/mod.rs:65-67 | a constructor, `Forwards{n}` for a `u32` n; what it means is `Windowing.Range`'s window and `Windowing.ForwardsWindow` |
| Options.FromLast | src/opt/mod.rs:69-71 | a constructor, `Backwards{n}` for a `u32` n; what it means is `Windowing.Range`'s window and `Windowing.BackwardsWindow` |
| Options.FormatFromStr | src/opt/mod.rs:36-56 | the lower-cased input names the format, with colours and details on; otherwise InvalidFormat |
| Options.WithFlags | src/opt/mod.rs:126-141 | the same kind of format; details from the flag; colours from the flag except for JSON |
| Options.Default | src/opt/mod.rs:87-104 | logfile "/var/log/pacman.log", coloured detailed plain output, no limit, direction or date, no filters, all flags off |
| Options.LimitOf | src/opt/mod.rs:143-147 | none exactly for "all" or no limit; otherwise the u32 given |
| Options.DirectionOf | src/opt/mod.rs:149-159 | none exactly without `first` and `last`; forwards exactly when `first` is given; n is the number given |
| Options.FromArgs | src/opt/mod.rs:111-179 | the format named, with `no-colors` and `no-details` applied; the limit, window and date as above; filters and logfile as given |
| Options.FormatFromStrIgnoresCase | src/opt/mod.rs:37 | the parse of a string is the parse of its lower-case form |
| Options.FormatFromStrKeyword | src/opt/mod.rs:38-51 | each format's name parses to it with colours and details on |
| Options.PlainInMixedCase | src/opt/mod.rs:190-263 | "PlAiN" is coloured detailed plain |
| Options.JsonInMixedCase | src/opt/mod.rs:190-263 | "JsOn" is JSON with details |
| Options.CompactInMixedCase | src/opt/mod.rs:190-263 | "CoMpAcT" is coloured detailed compact |
| Options.FooIsNoFormat | src/opt/mod.rs:266-273 | "foo" is InvalidFormat |
| Options.WithFlagsOverrides | src/opt/mod.rs:132-140 | the parsed format's own flags are replaced by the command line's |
| Options.NoArgsIsDefault | src/opt/mod.rs:275-291 | a run without options has the default configuration |
| Options.FirstWins | src/opt/mod.rs:149-152 | `first` takes precedence over `last` |
| Options.NumberExamples | src/opt/mod.rs:419-463 | `--limit 3` is 3; `--first 50` and `--last 50` are windows of 50 |
| Options.AfterExample | src/opt/mod.rs:466-487 | `--after "2019-01-01 12:00"` is that minute |
| LegacyConfig.FormatFromStr | src/config.rs:14-27 | "json" or "plain" in any case, plain coloured; otherwise InvalidFormat |
| LegacyConfig.FromArgs | src/config.rs:39-63 | plain exactly when "plain" was given, coloured unless `no-colors`; `no_colors` mirrors the flag; the rest as given |
| LegacyConfig.FormatFromStrIgnoresCase | src/config.rs:18 | the parse of a string is the parse of its lower-case form |
| LegacyConfig.FormatFromStrKeyword | src/config.rs:19-22 | each name parses to its format |
| LegacyConfig.PlainInMixedCase | src/config.rs:73-84 | "PlAiN" is coloured plain |
| LegacyConfig.JsonInMixedCase | src/config.rs:87-97 | "JsOn" is JSON |
| LegacyConfig.FooIsNoFormat | src/config.rs:100-108 | "foo" is InvalidFormat |
| LegacyConfig.FromArgsExamples | src/config.rs:111-165 | the default, `--no-colors` and JSON configurations of the tests |
| DepthOption.ValidateDepth | src/opt.rs:55-63 | Ok exactly for "all" in any case or a u32; otherwise "Please provide either 'all' or a number" |
| DepthOption.ValidateDepthAcceptsNumbers | src/opt.rs:59-60 | every u32, 0 included, is a depth |
| DepthOption.ValidateDepthAcceptsAll | src/opt.rs:56-58 | "all" in any case is a depth |
| DepthOption.ValidateDepthRejects | src/opt.rs:61 | other strings with a non-digit are refused with the message |
| DepthOption.ValidateDepthExamples | src/opt.rs:150-167 | "3", "0" and "ALL" pass, "many" does not |
| Logging.FromVerbosity | src/log.rs:10-18 | total over u64; Off exactly at 0, Trace exactly from 4, never Error |
| Logging.FromVerbosityMonotone | src/log.rs:10-18 | more `-v` flags never give a stricter filter |
| Logging.FromVerbosityExamples | src/log.rs:11-16 | 0, 1, 2, 3, 4 give Off, Warn, Info, Debug, Trace |
| Logging.TraceEnablesAll | src/log.rs:16 | from verbosity 4 on every level is logged |

## Left out

- Reading the log file: `File::open`, `BufReader`, and line-read errors with their `eprintln!` (`src/pacman/mod.rs:116-131`). The log is a sequence of strings, already read.
- `process::exit` and `panic!` when the log cannot be opened (`src/pkghist/mod.rs:20-23`, `src/pkghist.rs:19-20`). These are I/O failures.
- The regex crate and `lazy_static`. A hand-written scanner implements the grammar at `src/pacman/mod.rs:24` with the same greedy and lazy choices:
  - `\d` is taken as ASCII digits;
  - `\s` is taken as ASCII whitespace.
- chrono's parser. Timestamps are integer fields checked by a calendar predicate. A shape-valid but calendar-invalid timestamp makes the `unwrap` at `src/pacman/mod.rs:109` panic; the model returns it as the explicit error `DatePanic`, and `LogFile.FromLines` requires that no line panics.
- ArgValidators.ParseDateArg: accepts only the zero-padded "YYYY-MM-DD HH:MM" shape. chrono also accepts unpadded fields and other whitespace.
- clap. These are left out:
  - `parse_args` (`src/opt.rs:3-77`, `src/opt/mod.rs:14-16`);
  - `build_cli` and its argument conflicts (`src/opt/cli.rs:4-105`);
  - the `ArgMatches` lookups.

  The decisions of both `from_arg_matches` functions are modelled over plain strings, flags and options.
- Options.FromArgs: it requires that its `unwrap`s succeed (`Unwraps`), where the code panics. Also left out:
  - the `println!` of each filter (`src/opt/mod.rs:114`);
  - the compilation of filters into regular expressions.
- serde_json. Both `format_json` functions (`src/pkghist/format.rs:9-22`, `src/pkghist.rs:66-70`) are left out, and `Printers.Print` and `Printers.PrintAsWritten` return nothing for the JSON format.
- The legacy text printer `format_plain` of `src/pkghist.rs` is left out. Only its `run` ordering is modelled.
- termion colour escape codes are left out. A line carries its colour as a value, and writing to stdout is replaced by returning the lines.
- The `log` macros, fern's `setup_logging` (`src/log.rs:1-8`), build.rs, src/main.rs and the error type's `Display`/`From` impls (src/error.rs is not part of this model). Errors are a plain datatype.
- `exclude`, `after`, `limit` and regex matching of filters are left out. They exist only as configuration fields: the code shown never filters by them, so they are parsed and carried but have no effect.
- Chars.Lower: lower-cases ASCII letters only. Rust's `to_lowercase` is Unicode-aware; every keyword compared against is ASCII.
- String order: names compare by character, where Rust compares by UTF-8 byte. The two orders agree.
- Printers.MaxLens: counts characters, where Rust's `len` counts bytes. These agree for ASCII names, dates, actions and versions.
- Integer widths. `u32` is bounded explicitly wherever the code parses one (`ParseU32`, `FromFirst`, `FromLast`, `LimitOf`). `u64` is bounded in `Logging.FromVerbosity`. `usize` lengths are unbounded naturals.

## Findings

| source | as written | input that shows it | evidently intended | confidence | as-written member | corrected member |
|---|---|---|---|---|---|---|
| src/pkghist/format.rs:89 | `format_compact` computes `max_lens` before looping. `max_lens` (src/pkghist/format.rs:153-160) unwraps the maximum of an empty iterator when there is no history or no event, so it panics. | `--output-format compact` together with `--removed-only` on a log with no removed package, or with a filter naming no logged package: the history list is empty. | Print nothing, as the plain printer does for an empty list. | not executed | Printers.CompactAsWritten, Printers.CompactPanicsOnNoHistories, Printers.PrintAsWritten, Printers.PrintPanicsOnNoHistories | Printers.Compact, Printers.FormatCompact, Printers.CompactAsIntended, Printers.Print |
