// The per-line fold of `from_file`: every line of the log is parsed, the
// events of the lines that parse are pushed onto the result in the order of
// the lines, and the lines that do not parse are skipped. Opening and reading
// the file is outside the model; the log is the sequence of its lines.
module LogFile {
  import opened Wrappers
  import opened PacmanEvents
  import opened LineParser

  /** A line parser: `FromStr` in the program; the properties of the fold
    * hold for any parser. */
  type Parser = string -> Result<PacmanEvent, LineError>

  /** The events of the lines that parse, in the order of the lines. */
  function Parsed(parse: Parser, lines: seq<string>): (r: seq<PacmanEvent>)
    ensures |r| <= |lines|
  {
    if |lines| == 0 then []
    else
      var init := Parsed(parse, lines[..|lines| - 1]);
      match parse(lines[|lines| - 1])
      case Ok(e) => init + [e]
      case Err(_) => init
  }

  /** The parser panics (it unwraps chrono's result) on a line whose date has
    * the right shape but is not a date of the calendar. */
  predicate NoPanic(lines: seq<string>) {
    forall i :: 0 <= i < |lines| ==> FromStr(lines[i]) != Err(DatePanic)
  }

  /** The fold: starts from an empty vector and pushes the event of each
    * line that parses. */
  method Fold(parse: Parser, lines: seq<string>) returns (events: seq<PacmanEvent>)
    requires forall i :: 0 <= i < |lines| ==> parse(lines[i]) != Err(DatePanic)
    ensures events == Parsed(parse, lines)
  {
    events := [];
    var i := 0;
    while i < |lines|
      invariant 0 <= i <= |lines|
      invariant events == Parsed(parse, lines[..i])
    {
      var r := parse(lines[i]);
      ParsedSnoc(parse, lines, i);
      if r.Ok? {
        events := events + [r.value];
      }
      i := i + 1;
    }
    assert lines[..i] == lines;
  }

  /** `from_file` once the file has been read into lines: the fold with
    * `PacmanEvent::from_str` as the line parser. */
  method FromLines(lines: seq<string>) returns (events: seq<PacmanEvent>)
    requires NoPanic(lines)
    ensures events == Parsed(FromStr, lines)
  {
    events := Fold(FromStr, lines);
  }

  /** One more line extends the fold by its event, if it has one. */
  lemma ParsedSnoc(parse: Parser, lines: seq<string>, i: nat)
    requires i < |lines|
    ensures Parsed(parse, lines[..i + 1]) ==
      Parsed(parse, lines[..i]) + (if parse(lines[i]).Ok? then [parse(lines[i]).value] else [])
  {
    assert lines[..i + 1][..i] == lines[..i];
  }

  /** The fold over two pieces of a log is the concatenation of the folds. */
  lemma {:induction false} ParsedAppend(parse: Parser, a: seq<string>, b: seq<string>)
    ensures Parsed(parse, a + b) == Parsed(parse, a) + Parsed(parse, b)
    decreases |b|
  {
    if |b| > 0 {
      var b' := b[..|b| - 1];
      ParsedAppend(parse, a, b');
      assert (a + b)[..|a + b| - 1] == a + b';
      assert (a + b)[|a + b| - 1] == b[|b| - 1];
    } else {
      assert a + b == a;
    }
  }

  /** One line contributes its event when it parses and nothing otherwise. */
  lemma ParsedLine(parse: Parser, l: string)
    ensures parse(l).Ok? ==> Parsed(parse, [l]) == [parse(l).value]
    ensures parse(l).Err? ==> Parsed(parse, [l]) == []
  {
    assert [l][..0] == [];
  }

  /** A line that does not parse can be removed without changing the result. */
  lemma NoiseDropped(parse: Parser, a: seq<string>, l: string, b: seq<string>)
    requires parse(l).Err?
    ensures Parsed(parse, a + [l] + b) == Parsed(parse, a + b)
  {
    ParsedAppend(parse, a + [l], b);
    ParsedAppend(parse, a, [l]);
    ParsedAppend(parse, a, b);
    ParsedLine(parse, l);
  }

  /** An event is in the result exactly when some line parses to it. */
  lemma {:induction false} ParsedMembers(parse: Parser, lines: seq<string>, e: PacmanEvent)
    ensures e in Parsed(parse, lines) <==> exists i :: 0 <= i < |lines| && parse(lines[i]) == Ok(e)
  {
    if |lines| > 0 {
      var init := lines[..|lines| - 1];
      ParsedMembers(parse, init, e);
      if e in Parsed(parse, init) {
        var i :| 0 <= i < |init| && parse(init[i]) == Ok(e);
        assert lines[i] == init[i];
      }
      if exists i :: 0 <= i < |lines| && parse(lines[i]) == Ok(e) {
        var i :| 0 <= i < |lines| && parse(lines[i]) == Ok(e);
        if i < |init| { assert init[i] == lines[i]; }
      }
    }
  }

  /** The events of the parsable lines of a log, one per line: the noise before
    * them contributes nothing and the result is as long as the good part. */
  lemma {:induction false} ValidLinesExtracted(parse: Parser, noise: seq<string>, good: seq<string>)
    requires forall i :: 0 <= i < |noise| ==> parse(noise[i]).Err?
    requires forall i :: 0 <= i < |good| ==> parse(good[i]).Ok?
    ensures |Parsed(parse, noise + good)| == |good|
    ensures forall i :: 0 <= i < |good| ==> Parsed(parse, noise + good)[i] == parse(good[i]).value
  {
    ParsedAppend(parse, noise, good);
    NothingParsed(parse, noise);
    EverythingParsed(parse, good);
  }

  lemma {:induction false} NothingParsed(parse: Parser, lines: seq<string>)
    requires forall i :: 0 <= i < |lines| ==> parse(lines[i]).Err?
    ensures Parsed(parse, lines) == []
  {
    if |lines| > 0 {
      NothingParsed(parse, lines[..|lines| - 1]);
    }
  }

  lemma {:induction false} EverythingParsed(parse: Parser, lines: seq<string>)
    requires forall i :: 0 <= i < |lines| ==> parse(lines[i]).Ok?
    ensures |Parsed(parse, lines)| == |lines|
    ensures forall i :: 0 <= i < |lines| ==> Parsed(parse, lines)[i] == parse(lines[i]).value
  {
    if |lines| > 0 {
      EverythingParsed(parse, lines[..|lines| - 1]);
    }
  }
}
