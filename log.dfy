// `level_filter_from_verbosity` of src/log.rs: how many `-v` flags select
// which log level.
module Logging {
  /** The level filters of the `log` crate, from the strictest. */
  datatype LevelFilter = Off | Error | Warn | Info | Debug | Trace

  /** The position of a filter in that order: a filter lets a message through
    * when the message's level is at most the filter's. */
  function Rank(l: LevelFilter): nat {
    match l
    case Off => 0
    case Error => 1
    case Warn => 2
    case Info => 3
    case Debug => 4
    case Trace => 5
  }

  const U64Max: nat := 0xFFFF_FFFF_FFFF_FFFF

  /** The map from the number of `-v` flags; every `u64` has a level. */
  function FromVerbosity(verbosity: nat): (l: LevelFilter)
    requires verbosity <= U64Max
    ensures l == Off <==> verbosity == 0
    ensures l == Trace <==> verbosity >= 4
    ensures l != Error
  {
    match verbosity
    case 0 => Off
    case 1 => Warn
    case 2 => Info
    case 3 => Debug
    case _ => Trace
  }

  /** A message of level `m` is logged under the filter `f`. */
  predicate Enabled(m: LevelFilter, f: LevelFilter)
    requires m != Off
  {
    Rank(m) <= Rank(f)
  }

  /** More `-v` flags never make the filter stricter. */
  lemma FromVerbosityMonotone(v1: nat, v2: nat)
    requires v1 <= v2 <= U64Max
    ensures Rank(FromVerbosity(v1)) <= Rank(FromVerbosity(v2))
  {
  }

  lemma FromVerbosityExamples()
    ensures FromVerbosity(0) == Off && FromVerbosity(1) == Warn && FromVerbosity(2) == Info
    ensures FromVerbosity(3) == Debug && FromVerbosity(4) == Trace
  {
  }

  /** At verbosity four and above every level is logged. */
  lemma TraceEnablesAll(v: nat, m: LevelFilter)
    requires 4 <= v <= U64Max && m != Off
    ensures Enabled(m, FromVerbosity(v))
  {
  }
}
