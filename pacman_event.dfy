// One parsed pacman log entry and its ordering: package name first, then
// date. The ordering ignores action and versions, so two distinct events can
// compare as equal; it is a total preorder.
module PacmanEvents {
  import opened Wrappers
  import opened Orderings
  import opened DateTimes
  import opened Actions
  import StableSort

  datatype PacmanEvent = PacmanEvent(
    date: DateTime,
    action: Action,
    package: string,
    from: string,
    to: Option<string>)

  /** The version an event leaves installed: the target of an upgrade or
    * downgrade when there is one, otherwise the only version given. */
  function PrintableVersion(e: PacmanEvent): (v: string)
    ensures e.to.Some? ==> v == e.to.value
    ensures e.to.None? ==> v == e.from
  {
    match e.to
    case Some(t) => t
    case None => e.from
  }

  /** `Ord::cmp`: the same package compares by date, different packages by name. */
  function Cmp(a: PacmanEvent, b: PacmanEvent): (o: Ordering)
    ensures o == Equal <==> a.package == b.package && a.date == b.date
  {
    if a.package == b.package then DateTimes.Compare(a.date, b.date)
    else CompareStrings(a.package, b.package)
  }

  predicate Le(a: PacmanEvent, b: PacmanEvent) { Cmp(a, b) != Greater }

  lemma CmpEqual(a: PacmanEvent, b: PacmanEvent)
    ensures Cmp(a, b) == Equal <==> a.package == b.package && a.date == b.date
  {
    CompareStringsEqual(a.package, b.package);
  }

  lemma CmpFlip(a: PacmanEvent, b: PacmanEvent)
    ensures Cmp(b, a) == Flip(Cmp(a, b))
  {
    CompareStringsFlip(a.package, b.package);
    DateTimes.CompareFlip(a.date, b.date);
  }

  /** Different packages order by name whatever their dates. */
  lemma CmpDifferentPackages(a: PacmanEvent, b: PacmanEvent)
    requires a.package != b.package
    ensures Cmp(a, b) == Less <==> StringLess(a.package, b.package)
    ensures Cmp(a, b) != Equal
  {
    CompareStringsEqual(a.package, b.package);
  }

  /** Events of one package order by date. */
  lemma CmpSamePackage(a: PacmanEvent, b: PacmanEvent)
    requires a.package == b.package
    ensures Cmp(a, b) == DateTimes.Compare(a.date, b.date)
  {
  }

  lemma CmpLessTransitive(a: PacmanEvent, b: PacmanEvent, c: PacmanEvent)
    requires Cmp(a, b) == Less && Cmp(b, c) == Less
    ensures Cmp(a, c) == Less
  {
    CompareStringsEqual(a.package, b.package);
    CompareStringsEqual(b.package, c.package);
    CompareStringsEqual(a.package, c.package);
    if a.package == b.package && b.package == c.package {
      DateTimes.CompareTransitive(a.date, b.date, c.date);
    } else if a.package != b.package && b.package != c.package {
      if a.package == c.package {
        CompareStringsFlip(b.package, c.package);
      } else {
        CompareStringsTransitive(a.package, b.package, c.package);
      }
    }
  }

  lemma LeTotal(a: PacmanEvent, b: PacmanEvent)
    ensures Le(a, b) || Le(b, a)
  {
    CmpFlip(a, b);
  }

  lemma LeTransitive(a: PacmanEvent, b: PacmanEvent, c: PacmanEvent)
    requires Le(a, b) && Le(b, c)
    ensures Le(a, c)
  {
    CmpEqual(a, b);
    CmpEqual(b, c);
    if Cmp(a, b) == Less && Cmp(b, c) == Less {
      CmpLessTransitive(a, b, c);
    }
  }

  /** `Cmp` satisfies what `Ord` requires, so the stable sort applies to it. */
  lemma CmpTotalPreorder()
    ensures StableSort.TotalPreorder(Cmp)
  {
    forall a: PacmanEvent, b: PacmanEvent ensures Cmp(b, a) == Flip(Cmp(a, b)) {
      CmpFlip(a, b);
    }
    forall a: PacmanEvent, b: PacmanEvent, c: PacmanEvent | Cmp(a, b) != Greater && Cmp(b, c) != Greater
      ensures Cmp(a, c) != Greater
    {
      LeTransitive(a, b, c);
    }
  }
}
