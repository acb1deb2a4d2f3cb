// The action a pacman log line records, its installed/removed reading, its
// display name and its case-insensitive parse.
//
// `Downgraded` is a fifth variant: the line grammar accepts the keyword
// "downgraded" and the printers colour downgrades, so the enumeration the
// rest of the program relies on has it, and it parses from "downgraded".
module Actions {
  import opened Wrappers
  import opened Chars

  datatype Action = Installed | Reinstalled | Upgraded | Removed | Downgraded

  datatype ActionError = InvalidAction

  predicate IsRemoved(a: Action): (b: bool)
    ensures b <==> Keyword(a) == "removed"
  {
    a == Removed
  }

  /** Everything that is not a removal leaves the package installed. */
  predicate IsInstalled(a: Action): (b: bool)
    ensures b <==> a in {Installed, Reinstalled, Upgraded, Downgraded}
  {
    !IsRemoved(a)
  }

  /** `Display`: the variant's name as written in the enumeration, which is
    * its keyword with the first letter in upper case. */
  function ToString(a: Action): (s: string)
    ensures |s| == |Keyword(a)| > 0 && 'A' <= s[0] <= 'Z' && s[1..] == Keyword(a)[1..]
    ensures LowerChar(s[0]) == Keyword(a)[0]
  {
    match a
    case Installed => "Installed"
    case Reinstalled => "Reinstalled"
    case Upgraded => "Upgraded"
    case Removed => "Removed"
    case Downgraded => "Downgraded"
  }

  /** The keyword of the log grammar for each action: its name in lower case. */
  function Keyword(a: Action): (k: string)
  {
    match a
    case Installed => "installed"
    case Reinstalled => "reinstalled"
    case Upgraded => "upgraded"
    case Removed => "removed"
    case Downgraded => "downgraded"
  }

  lemma LowerOfName(a: Action)
    ensures Lower(ToString(a)) == Keyword(a)
  {
    match a
    case Installed => LowerWord("Installed", "installed");
    case Reinstalled => LowerWord("Reinstalled", "reinstalled");
    case Upgraded => LowerWord("Upgraded", "upgraded");
    case Removed => LowerWord("Removed", "removed");
    case Downgraded => LowerWord("Downgraded", "downgraded");
  }

  /** A capitalised word whose lower-case form is `k`. */
  lemma LowerWord(n: string, k: string)
    requires |n| == |k| > 0 && LowerChar(n[0]) == k[0]
    requires forall i :: 1 <= i < |n| ==> n[i] == k[i] && 'a' <= n[i] <= 'z'
    ensures Lower(n) == k
  {
    forall i | 0 <= i < |k| ensures Lower(n)[i] == k[i] {
      assert Lower(n)[i] == LowerChar(n[i]);
    }
  }

  /** `FromStr`: lower-case the input, then match one of the keywords. */
  function FromStr(s: string): (r: Result<Action, ActionError>)
    ensures r.Ok? ==> Lower(s) == Keyword(r.value)
    ensures r.Err? ==> forall a: Action :: Lower(s) != Keyword(a)
  {
    var k := Lower(s);
    if k == "upgraded" then Ok(Upgraded)
    else if k == "installed" then Ok(Installed)
    else if k == "reinstalled" then Ok(Reinstalled)
    else if k == "removed" then Ok(Removed)
    else if k == "downgraded" then Ok(Downgraded)
    else Err(InvalidAction)
  }

  lemma IsInstalledExactly(a: Action)
    ensures IsInstalled(a) <==> a in {Installed, Reinstalled, Upgraded, Downgraded}
    ensures IsInstalled(a) != IsRemoved(a)
  {
  }

  /** The printers parse the strings `ToString` produced; that never fails. */
  lemma FromStrRoundTrip(a: Action)
    ensures FromStr(ToString(a)) == Ok(a)
  {
    LowerOfName(a);
  }

  lemma ToStringInjective(a: Action, b: Action)
    requires ToString(a) == ToString(b)
    ensures a == b
  {
    FromStrRoundTrip(a);
    FromStrRoundTrip(b);
  }

  /** Letter case never matters to the parse. */
  lemma FromStrIgnoresCase(s: string)
    ensures FromStr(s) == FromStr(Lower(s))
  {
    LowerIdempotent(s);
  }

  /** Each keyword maps to its own variant. */
  lemma FromStrKeyword(a: Action)
    ensures FromStr(Keyword(a)) == Ok(a)
  {
    LowerOfName(a);
    LowerIdempotent(ToString(a));
  }

  lemma FromStrRejectsFoo()
    ensures FromStr("foo") == Err(InvalidAction)
  {
    assert Lower("foo") == "foo";
  }
}
