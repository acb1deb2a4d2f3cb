// The validator of the `depth` option in src/opt.rs: "all" in any letter
// case, or any `u32`.
module DepthOption {
  import opened Wrappers
  import opened Chars

  const DepthMessage: string := "Please provide either 'all' or a number"

  /** The `depth` validator closure: "all" first, then a `u32` parse. */
  function ValidateDepth(v: string): (r: Result<(), string>)
    ensures r.Ok? <==> Lower(v) == "all" || ParseU32(v).Some?
    ensures r.Err? ==> r.error == DepthMessage
  {
    if Lower(v) == "all" then Ok(())
    else match ParseU32(v)
      case Some(_) => Ok(())
      case None => Err(DepthMessage)
  }

  /** Every `u32` is a depth, zero included. */
  lemma ValidateDepthAcceptsNumbers(n: nat)
    requires n <= U32Max
    ensures ValidateDepth(NatToString(n)) == Ok(())
  {
    ParseU32RoundTrip(n);
  }

  /** "all" is a depth in any letter case. */
  lemma ValidateDepthAcceptsAll(v: string)
    requires Lower(v) == "all"
    ensures ValidateDepth(v) == Ok(())
  {
  }

  /** Anything else is refused: a string with a letter, other than "all". */
  lemma ValidateDepthRejects(v: string, i: nat)
    requires Lower(v) != "all" && i < |v| && !IsDigit(v[i]) && v[i] != '+'
    ensures ValidateDepth(v) == Err(DepthMessage)
  {
    ParseU32RejectsNonDigit(v, i);
  }

  lemma ValidateDepthExamples()
    ensures ValidateDepth("3") == Ok(())
    ensures ValidateDepth("0") == Ok(())
    ensures ValidateDepth("ALL") == Ok(())
    ensures ValidateDepth("many") == Err(DepthMessage)
  {
    assert "3" == NatToString(3) && "0" == NatToString(0);
    ValidateDepthAcceptsNumbers(3);
    ValidateDepthAcceptsNumbers(0);
    assert Lower("ALL") == "all";
    assert Lower("many") == "many";
    ValidateDepthRejects("many", 0);
  }
}
