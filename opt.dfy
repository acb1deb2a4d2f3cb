// The configuration of src/opt/mod.rs: the output format and its parse, the
// package window, the defaults, and the decisions `from_arg_matches` takes
// on the values clap extracted (given here as plain booleans, options and
// strings).
module Options {
  import opened Wrappers
  import opened Chars
  import opened DateTimes
  import opened ArgValidators

  /** Which end of the ranking a window of `n` packages keeps. */
  datatype Direction = Forwards(n: nat) | Backwards(n: nat)

  /** `from_first`: the first `n` packages. */
  function FromFirst(n: nat): (d: Direction)
    requires n <= U32Max
    ensures d.Forwards? && d.n == n
  {
    Forwards(n)
  }

  /** `from_last`: the last `n` packages. */
  function FromLast(n: nat): (d: Direction)
    requires n <= U32Max
    ensures d.Backwards? && d.n == n
  {
    Backwards(n)
  }

  // ---------------------------------------------------------------- the output format

  datatype Format =
    | Plain(withColors: bool, withoutDetails: bool)
    | Json(withoutDetails: bool)
    | Compact(withColors: bool, withoutDetails: bool)

  datatype FormatError = InvalidFormat

  /** The name of a format on the command line. */
  function Keyword(f: Format): string {
    match f
    case Plain(_, _) => "plain"
    case Json(_) => "json"
    case Compact(_, _) => "compact"
  }

  /** Colours are on unless the format says otherwise; JSON has no colours. */
  predicate Colored(f: Format) {
    !f.Json? && f.withColors
  }

  /** `Format::from_str`: lower-case the input and match a format name; the
    * format comes with colours and details on. */
  function FormatFromStr(s: string): (r: Result<Format, FormatError>)
    ensures r.Ok? ==> Lower(s) == Keyword(r.value)
    ensures r.Ok? ==> !r.value.withoutDetails && (r.value.Json? || r.value.withColors)
    ensures r.Err? ==> forall f: Format :: Lower(s) != Keyword(f)
  {
    var k := Lower(s);
    if k == "json" then Ok(Json(false))
    else if k == "plain" then Ok(Plain(true, false))
    else if k == "compact" then Ok(Compact(true, false))
    else Err(InvalidFormat)
  }

  /** The format the flags make of a parsed one: same kind, the `no-colors`
    * and `no-details` flags applied (JSON only takes the second). */
  function WithFlags(f: Format, withColors: bool, withoutDetails: bool): (r: Format)
    ensures Keyword(r) == Keyword(f)
    ensures r.withoutDetails == withoutDetails
    ensures !r.Json? ==> r.withColors == withColors
  {
    match f
    case Plain(_, _) => Plain(withColors, withoutDetails)
    case Compact(_, _) => Compact(withColors, withoutDetails)
    case Json(_) => Json(withoutDetails)
  }

  // ---------------------------------------------------------------- the configuration

  /** `Config`. The filters are the patterns as written; compiling them to
    * regular expressions is not part of this model. */
  datatype Config = Config(
    exclude: bool,
    removedOnly: bool,
    withRemoved: bool,
    logfile: string,
    filters: seq<string>,
    format: Format,
    limit: Option<nat>,
    direction: Option<Direction>,
    after: Option<DateTime>)

  const DefaultLogfile: string := "/var/log/pacman.log"

  /** `Config::default`. */
  function Default(): (c: Config)
    ensures c.logfile == DefaultLogfile && c.filters == []
    ensures c.format == Plain(true, false)
    ensures c.limit.None? && c.direction.None? && c.after.None?
    ensures !c.exclude && !c.removedOnly && !c.withRemoved
  {
    Config(false, false, false, DefaultLogfile, [], Plain(true, false), None, None, None)
  }

  /** What clap hands to `from_arg_matches`: the flags, and each option's value
    * when it was given (the format and the log file have defaults). */
  datatype Args = Args(
    filters: seq<string>,
    noColors: bool,
    noDetails: bool,
    outputFormat: string,
    limit: Option<string>,
    first: Option<string>,
    last: Option<string>,
    after: Option<string>,
    exclude: bool,
    removedOnly: bool,
    withRemoved: bool,
    logfile: string)

  /** The arguments of a run without options. */
  function NoArgs(): Args {
    Args([], false, false, "plain", None, None, None, None, false, false, false, DefaultLogfile)
  }

  /** The `unwrap`s of `from_arg_matches` succeed: the format parses, a limit
    * other than "all" is a `u32`, the window size that is used is a `u32`,
    * and the date is a date. */
  predicate Unwraps(a: Args) {
    FormatFromStr(a.outputFormat).Ok? &&
    (a.limit.Some? && a.limit.value != "all" ==> ParseU32(a.limit.value).Some?) &&
    (a.first.Some? ==> ParseU32(a.first.value).Some?) &&
    (a.first.None? && a.last.Some? ==> ParseU32(a.last.value).Some?) &&
    (a.after.Some? ==> ParseDateArg(a.after.value).Some?)
  }

  /** The limit: "all" and no limit both mean none. */
  function LimitOf(limit: Option<string>): (r: Option<nat>)
    requires limit.Some? && limit.value != "all" ==> ParseU32(limit.value).Some?
    ensures r.None? <==> limit.None? || limit == Some("all")
    ensures r.Some? ==> ParseU32(limit.value) == r && r.value <= U32Max
  {
    match limit
    case Some(v) => if v == "all" then None else Some(ParseU32(v).value)
    case None => None
  }

  /** The window: `first` if given, else `last`, else none. */
  function DirectionOf(first: Option<string>, last: Option<string>): (r: Option<Direction>)
    requires first.Some? ==> ParseU32(first.value).Some?
    requires first.None? && last.Some? ==> ParseU32(last.value).Some?
    ensures r.None? <==> first.None? && last.None?
    ensures r.Some? && r.value.Forwards? <==> first.Some?
    ensures r.Some? ==> Some(r.value.n) == ParseU32(if first.Some? then first.value else last.value)
  {
    if first.Some? then Some(FromFirst(ParseU32(first.value).value))
    else if last.Some? then Some(FromLast(ParseU32(last.value).value))
    else None
  }

  /** `from_arg_matches`. */
  function FromArgs(a: Args): (c: Config)
    requires Unwraps(a)
    ensures Keyword(c.format) == Lower(a.outputFormat)
    ensures c.format.withoutDetails == a.noDetails
    ensures !c.format.Json? ==> c.format.withColors == !a.noColors
    ensures c.limit == LimitOf(a.limit) && c.direction == DirectionOf(a.first, a.last)
    ensures c.after.Some? <==> a.after.Some?
    ensures c.after.Some? ==> c.after == ParseDateArg(a.after.value)
    ensures c.filters == a.filters && c.logfile == a.logfile
    ensures c.exclude == a.exclude && c.removedOnly == a.removedOnly && c.withRemoved == a.withRemoved
  {
    var format := WithFlags(FormatFromStr(a.outputFormat).value, !a.noColors, a.noDetails);
    var after := match a.after
      case Some(d) => ParseDateArg(d)
      case None => None;
    Config(a.exclude, a.removedOnly, a.withRemoved, a.logfile, a.filters, format,
           LimitOf(a.limit), DirectionOf(a.first, a.last), after)
  }

  // ---------------------------------------------------------------- properties

  /** Letter case never matters to the format parse. */
  lemma FormatFromStrIgnoresCase(s: string)
    ensures FormatFromStr(s) == FormatFromStr(Lower(s))
  {
    LowerIdempotent(s);
  }

  /** Each format name parses to its format, colours and details on: the
    * all-inputs partner of `FormatFromStr`. */
  lemma FormatFromStrKeyword(f: Format)
    ensures FormatFromStr(Keyword(f)) == Ok(WithFlags(f, true, false))
  {
    assert Lower("json") == "json" && Lower("plain") == "plain" && Lower("compact") == "compact";
  }

  /** The parse examples, in mixed case and not a format at all. */
  lemma PlainInMixedCase()
    ensures FormatFromStr("PlAiN") == Ok(Plain(true, false))
  {
    assert Lower("PlAiN") == "plain";
  }

  lemma JsonInMixedCase()
    ensures FormatFromStr("JsOn") == Ok(Json(false))
  {
    assert Lower("JsOn") == "json";
  }

  lemma CompactInMixedCase()
    ensures FormatFromStr("CoMpAcT") == Ok(Compact(true, false))
  {
    assert Lower("CoMpAcT") == "compact";
  }

  lemma FooIsNoFormat()
    ensures FormatFromStr("foo") == Err(InvalidFormat)
  {
    assert Lower("foo") == "foo";
  }

  /** Applying the flags twice keeps the second ones; the flags of the parsed
    * format are irrelevant. */
  lemma WithFlagsOverrides(f: Format, c1: bool, d1: bool, c2: bool, d2: bool)
    ensures WithFlags(WithFlags(f, c1, d1), c2, d2) == WithFlags(f, c2, d2)
  {
  }

  /** A run without options has the default configuration. */
  lemma NoArgsIsDefault()
    ensures Unwraps(NoArgs())
    ensures FromArgs(NoArgs()) == Default()
  {
    FormatFromStrKeyword(Plain(true, false));
  }

  /** `--first` wins over `--last`. */
  lemma FirstWins(a: Args)
    requires Unwraps(a) && a.first.Some? && a.last.Some?
    ensures FromArgs(a).direction == Some(Forwards(ParseU32(a.first.value).value))
  {
  }

  /** `--limit 3` gives a limit of 3, `--first 50` and `--last 50` windows of 50. */
  lemma NumberExamples(a: Args)
    requires Unwraps(a)
    ensures a.limit == Some("3") ==> FromArgs(a).limit == Some(3)
    ensures a.first == Some("50") ==> FromArgs(a).direction == Some(Forwards(50))
    ensures a.first.None? && a.last == Some("50") ==> FromArgs(a).direction == Some(Backwards(50))
  {
    assert "3" == NatToString(3) && "50" == NatToString(50);
    ParseU32RoundTrip(3);
    ParseU32RoundTrip(50);
  }

  /** `--after "2019-01-01 12:00"` is that minute. */
  lemma AfterExample(a: Args)
    requires Unwraps(a) && a.after == Some("2019-01-01 12:00")
    ensures FromArgs(a).after == Some(DateTime(2019, 1, 1, 12, 0, 0))
  {
    AfterArgExample();
  }
}
