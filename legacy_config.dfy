// src/config.rs, the older configuration: two formats, a plain format that
// may have its colours switched off, and the `no_colors` flag kept beside it.
module LegacyConfig {
  import opened Wrappers
  import opened Chars

  datatype Format = Plain(withColors: bool) | Json

  datatype FormatError = InvalidFormat

  function Keyword(f: Format): string {
    match f
    case Plain(_) => "plain"
    case Json => "json"
  }

  /** `Format::from_str`: "json" or "plain" in any letter case; plain comes
    * with colours. */
  function FormatFromStr(s: string): (r: Result<Format, FormatError>)
    ensures r.Ok? ==> Lower(s) == Keyword(r.value)
    ensures r.Ok? && r.value.Plain? ==> r.value.withColors
    ensures r.Err? ==> forall f: Format :: Lower(s) != Keyword(f)
  {
    var k := Lower(s);
    if k == "json" then Ok(Json)
    else if k == "plain" then Ok(Plain(true))
    else Err(InvalidFormat)
  }

  datatype Config = Config(
    removedOnly: bool,
    withRemoved: bool,
    logfile: string,
    filters: seq<string>,
    format: Format,
    noColors: bool)

  /** What clap hands to `from_arg_matches`. */
  datatype Args = Args(
    filters: seq<string>,
    outputFormat: string,
    noColors: bool,
    removedOnly: bool,
    withRemoved: bool,
    logfile: string)

  /** `from_arg_matches`, whose `unwrap` needs a format that parses: a
    * coloured plain format loses its colours to `--no-colors`; any other
    * parsed format becomes JSON. */
  function FromArgs(a: Args): (c: Config)
    requires FormatFromStr(a.outputFormat).Ok?
    ensures c.format.Plain? <==> Lower(a.outputFormat) == "plain"
    ensures c.format.Plain? ==> c.format.withColors == !a.noColors
    ensures c.noColors == a.noColors
    ensures c.filters == a.filters && c.logfile == a.logfile
    ensures c.removedOnly == a.removedOnly && c.withRemoved == a.withRemoved
  {
    var parsed := FormatFromStr(a.outputFormat).value;
    var format := if parsed == Plain(true) then (if a.noColors then Plain(false) else Plain(true)) else Json;
    Config(a.removedOnly, a.withRemoved, a.logfile, a.filters, format, a.noColors)
  }

  // ---------------------------------------------------------------- properties

  lemma FormatFromStrIgnoresCase(s: string)
    ensures FormatFromStr(s) == FormatFromStr(Lower(s))
  {
    LowerIdempotent(s);
  }

  /** Each name parses to its format: the all-inputs partner of the parse. */
  lemma FormatFromStrKeyword(f: Format)
    ensures FormatFromStr(Keyword(f)) == Ok(if f.Plain? then Plain(true) else Json)
  {
    assert Lower("json") == "json" && Lower("plain") == "plain";
  }

  lemma PlainInMixedCase()
    ensures FormatFromStr("PlAiN") == Ok(Plain(true))
  {
    assert Lower("PlAiN") == "plain";
  }

  lemma JsonInMixedCase()
    ensures FormatFromStr("JsOn") == Ok(Json)
  {
    assert Lower("JsOn") == "json";
  }

  lemma FooIsNoFormat()
    ensures FormatFromStr("foo") == Err(InvalidFormat)
  {
    assert Lower("foo") == "foo";
  }

  /** The configurations of the examples: the defaults, `--no-colors`, and
    * `--output-format json` with or without `--no-colors`. */
  lemma FromArgsExamples(noColors: bool)
    ensures FromArgs(Args([], "plain", false, false, false, "/var/log/pacman.log")) ==
      Config(false, false, "/var/log/pacman.log", [], Plain(true), false)
    ensures FromArgs(Args([], "plain", true, false, false, "/var/log/pacman.log")).format == Plain(false)
    ensures FromArgs(Args([], "plain", true, false, false, "/var/log/pacman.log")).noColors
    ensures FromArgs(Args([], "json", noColors, false, false, "/var/log/pacman.log")).format == Json
  {
    FormatFromStrKeyword(Plain(true));
    FormatFromStrKeyword(Json);
  }
}
