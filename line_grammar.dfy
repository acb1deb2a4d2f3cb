// What the line scanner accepts, stated on lines built from their fields:
// a well-formed pacman log line parses back into exactly the fields it was
// built from, and lines that break the grammar are rejected.
module LineGrammar {
  import opened Wrappers
  import opened Chars
  import opened DateTimes
  import opened Actions
  import opened PacmanEvents
  import opened LineParser

  /** The closing part of a line: the arrow and target version when there is one. */
  function Close(to: Option<string>): (r: string)
    ensures |r| > 0 && r[|r| - 1] == ')'
  {
    match to
    case Some(v) => " -> " + v + ")"
    case None => ")"
  }

  /** The package, " (", the source version and the closing part `c`. */
  function PackagePart(pkg: string, from: string, c: string): string {
    pkg + " (" + from + c
  }

  /** The line from the tag's closing bracket on, with the action keyword `kw`. */
  function TailPart(kw: string, pkg: string, from: string, c: string): string {
    "] " + kw + " " + PackagePart(pkg, from, c)
  }

  /** A log line as pacman writes it. */
  function Line(date: string, tag: string, a: Action, pkg: string, from: string, to: Option<string>): string {
    "[" + date + "] [" + tag + TailPart(Keyword(a), pkg, from, Close(to))
  }

  predicate Avoids(x: string, cs: set<char>) {
    forall i :: 0 <= i < |x| ==> x[i] !in cs
  }

  predicate NoSpace(x: string) {
    forall i :: 0 <= i < |x| ==> !IsSpace(x[i])
  }

  /** Fields for which the backtracking choices are forced: the package contains
    * no ']', the versions contain no brackets or '(' and `from` no whitespace
    * or ')'. */
  predicate PackageFields(pkg: string, from: string, to: Option<string>) {
    pkg != [] && Avoids(pkg, {'\n', ']'}) &&
    from != [] && Avoids(from, {'\n', ']', '(', ')'}) && NoSpace(from) &&
    (to.Some? ==> to.value != [] && Avoids(to.value, {'\n', ']', '('}))
  }

  /** A well-shaped timestamp, a nonempty tag without newlines, and package fields as above. */
  predicate WellFormedFields(date: string, tag: string, pkg: string, from: string, to: Option<string>) {
    (MinuteShape(date) || OffsetShape(date)) &&
    tag != [] && Avoids(tag, {'\n'}) &&
    PackageFields(pkg, from, to)
  }

  // ---------------------------------------------------------------- slicing

  /** A suffix that is a concatenation splits into its two parts. */
  lemma SplitSuffix(s: string, b: nat, x: string, y: string)
    requires b <= |s| && s[b..] == x + y
    ensures b + |x| <= |s| && s[b..b + |x|] == x && s[b + |x|..] == y
  {
    assert s[b..b + |x|] == (x + y)[..|x|];
    assert s[b + |x|..] == (x + y)[|x|..];
  }

  /** A slice that is a concatenation splits into its two parts. */
  lemma SplitSlice(s: string, b: nat, e: nat, x: string, y: string)
    requires b <= e <= |s| && s[b..e] == x + y
    ensures b + |x| <= e && s[b..b + |x|] == x && s[b + |x|..e] == y
  {
    assert s[b..b + |x|] == (x + y)[..|x|];
    assert s[b + |x|..e] == (x + y)[|x|..];
  }

  /** The characters of a slice that avoids `cs` avoid `cs`. */
  lemma SliceAvoids(s: string, lo: nat, hi: nat, x: string, cs: set<char>)
    requires lo <= hi <= |s| && s[lo..hi] == x && Avoids(x, cs)
    ensures forall k :: lo <= k < hi ==> s[k] !in cs
  {
    forall k | lo <= k < hi ensures s[k] !in cs {
      assert s[k] == x[k - lo];
    }
  }

  lemma SliceNoSpace(s: string, lo: nat, hi: nat, x: string)
    requires lo <= hi <= |s| && s[lo..hi] == x && NoSpace(x)
    ensures forall k :: lo <= k < hi ==> !IsSpace(s[k])
  {
    forall k | lo <= k < hi ensures !IsSpace(s[k]) {
      assert s[k] == x[k - lo];
    }
  }

  lemma CloseAvoids(to: Option<string>)
    requires to.Some? ==> Avoids(to.value, {'\n', ']', '('})
    ensures Avoids(Close(to), {'\n', ']', '('})
  {
    match to
    case None =>
    case Some(v) =>
      var c := Close(to);
      forall i | 0 <= i < |c| ensures c[i] !in {'\n', ']', '('} {
        if 4 <= i < |c| - 1 { assert c[i] == v[i - 4]; }
      }
  }

  lemma KeywordAvoids(a: Action)
    ensures Avoids(Keyword(a), {'\n', ']'})
  {
    match a
    case Installed => case Reinstalled => case Upgraded => case Removed => case Downgraded =>
  }

  /** The pieces of a line: the bracketed date, the tag, and the tail from `j` on. */
  lemma LineSlices(s: string, date: string, tag: string, t: string)
    requires s == "[" + date + "] [" + tag + t
    ensures var n := |date|; var j := n + 4 + |tag|;
      j <= |s| && s[0] == '[' && s[1..n + 1] == date && s[n + 1] == ']' && s[n + 2] == ' ' &&
      s[n + 3] == '[' && s[n + 4..j] == tag && s[j..] == t
  {
    var n := |date|;
    var j := n + 4 + |tag|;
    assert s[0..] == s;
    SplitSuffix(s, 0, "[" + date + "] [" + tag, t);
    SplitSlice(s, 0, j, "[" + date + "] [", tag);
    SplitSlice(s, 0, n + 4, "[" + date, "] [");
    SplitSlice(s, 0, n + 1, "[", date);
    assert s[0] == s[0..1][0];
    assert s[n + 1] == s[n + 1..n + 4][0] && s[n + 2] == s[n + 1..n + 4][1] && s[n + 3] == s[n + 1..n + 4][2];
  }

  /** The head of the tail: ']', a space, the keyword and a space. */
  lemma TailHead(s: string, j: nat, kw: string, rest: string, b: nat)
    requires j <= |s| && s[j..] == "] " + kw + " " + rest && b == j + 3 + |kw|
    ensures b <= |s| && s[j] == ']' && s[j + 1] == ' ' && s[j + 2..b - 1] == kw && s[b - 1] == ' '
    ensures s[b..] == rest
  {
    SplitSuffix(s, j, "] " + kw + " ", rest);
    SplitSlice(s, j, b, "] " + kw, " ");
    SplitSlice(s, j, b - 1, "] ", kw);
    assert s[j] == s[j..j + 2][0] && s[j + 1] == s[j..j + 2][1];
    assert s[b - 1] == s[b - 1..b][0];
  }

  /** The package, " (", `from` and the closing part. */
  lemma PackageSlices(s: string, b: nat, pkg: string, from: string, c: string, q: nat, r: nat)
    requires b <= |s| && s[b..] == PackagePart(pkg, from, c) && q == b + |pkg| && r == q + 2 + |from|
    ensures r <= |s| && s[b..q] == pkg && s[q] == ' ' && s[q + 1] == '(' && s[q + 2..r] == from
    ensures s[r..] == c
  {
    SplitSuffix(s, b, pkg + " (" + from, c);
    SplitSlice(s, b, r, pkg + " (", from);
    SplitSlice(s, b, q + 2, pkg, " (");
    assert s[q] == s[q..q + 2][0] && s[q + 1] == s[q..q + 2][1];
  }

  /** The pieces of the tail: ']', a space, the keyword, a space, the package,
    * " (", `from` and the closing part. */
  lemma TailSlices(s: string, j: nat, kw: string, pkg: string, from: string, c: string, b: nat, q: nat, r: nat)
    requires j <= |s| && s[j..] == TailPart(kw, pkg, from, c)
    requires b == j + 3 + |kw| && q == b + |pkg| && r == q + 2 + |from|
    ensures r <= |s| && s[j] == ']' && s[j + 1] == ' ' && s[j + 2..b - 1] == kw && s[b - 1] == ' '
    ensures s[b..q] == pkg && s[q] == ' ' && s[q + 1] == '(' && s[q + 2..r] == from && s[r..] == c
  {
    TailHead(s, j, kw, PackagePart(pkg, from, c), b);
    PackageSlices(s, b, pkg, from, c, q, r);
  }

  /** What the field restrictions say about the characters of the tail. */
  lemma TailChars(s: string, j: nat, kw: string, pkg: string, from: string, c: string, b: nat, q: nat, r: nat)
    requires j <= |s| && s[j..] == TailPart(kw, pkg, from, c)
    requires b == j + 3 + |kw| && q == b + |pkg| && r == q + 2 + |from|
    requires Avoids(kw, {'\n', ']'}) && Avoids(pkg, {'\n', ']'})
    requires Avoids(from, {'\n', ']', '(', ')'}) && NoSpace(from) && Avoids(c, {'\n', ']', '('})
    ensures forall k :: j <= k < |s| ==> s[k] != '\n'
    ensures forall k :: j < k < |s| ==> s[k] != ']'
    ensures forall k :: q + 1 < k < |s| ==> s[k] != '('
    ensures forall k :: q + 2 <= k < r ==> s[k] != ')' && !IsSpace(s[k])
  {
    TailSlices(s, j, kw, pkg, from, c, b, q, r);
    SliceAvoids(s, j + 2, b - 1, kw, {'\n', ']'});
    SliceAvoids(s, b, q, pkg, {'\n', ']'});
    SliceAvoids(s, q + 2, r, from, {'\n', ']', '(', ')'});
    SliceNoSpace(s, q + 2, r, from);
    SliceAvoids(s, r, |s|, c, {'\n', ']', '('});
  }

  // ---------------------------------------------------------------- the searches

  /** The closing part from `r`: the arrow part matches exactly when there is
    * a target, and then `to` ends at the final ')'. */
  lemma CloseMatches(s: string, r: nat, to: Option<string>)
    requires r <= |s| && s[r..] == Close(to)
    requires forall i :: r <= i < |s| ==> s[i] != '\n'
    requires to.Some? ==> to.value != []
    ensures ClosesAt(s, r)
    ensures (if ArrowAt(s, r) then ToClose(s, r + 4) else None) == (if to.Some? then Some(|s| - 1) else None)
    ensures to.Some? ==> s[r + 4..|s| - 1] == to.value
  {
    assert s[r] == Close(to)[0];
    match to
    case None =>
    case Some(v) =>
      assert s[r + 1] == '-' && s[r + 2] == '>' && s[r + 3] == ' ';
      assert s[|s| - 1] == Close(to)[|Close(to)| - 1];
      NoNewlineReachesEnd(s, r);
      ToCloseIs(s, r + 4, |s| - 1);
      assert s[r + 4..|s| - 1] == s[r..][4..|Close(to)| - 1];
  }

  /** The lazy `from` stops right before the closing part. */
  lemma FromMatches(s: string, q: nat, r: nat)
    requires q + 3 <= r < |s| && ClosesAt(s, r)
    requires forall k :: q + 2 <= k < r ==> s[k] != ')' && !IsSpace(s[k])
    requires forall k :: q + 2 <= k < |s| ==> s[k] != '\n'
    ensures FirstClose(s, q + 2, q + 3) == Some(r)
  {
    NoNewlineReachesEnd(s, q + 2);
    FirstCloseIs(s, q + 2, q + 3, r);
  }

  /** The greedy package ends at the last whitespace-'(' when no '(' follows it. */
  lemma PackageEndMatches(s: string, b: nat, q: nat)
    requires b < q && q + 2 <= |s| && s[q] == ' ' && s[q + 1] == '('
    requires FirstClose(s, q + 2, q + 3).Some?
    requires forall k :: q + 1 < k < |s| ==> s[k] != '('
    ensures LastPackageEnd(s, b + 1, |s| + 1) == Some(q)
  {
    assert PackageEndsAt(s, q);
    forall k | q < k < |s| + 1 ensures !PackageEndsAt(s, k) {
      if k + 2 <= |s| { assert s[k + 1] != '('; }
    }
    LastPackageEndIs(s, b + 1, |s| + 1, q);
  }

  /** No ']' after `j` means the tag cannot close after `j`. */
  lemma NoBracketEndAfter(s: string, j: nat)
    requires forall k :: j < k < |s| ==> s[k] != ']'
    ensures forall k :: j < k < |s| ==> !BracketEndsAt(s, k)
  {
  }

  lemma VersionsFromIs(s: string, a: Action, b: nat, q: nat, r: nat, t: Option<nat>)
    requires b < q && q + 2 <= |s| && FirstClose(s, q + 2, q + 3) == Some(r)
    requires (if ArrowAt(s, r) then ToClose(s, r + 4) else None) == t
    ensures VersionsFrom(s, a, b, q) == Some(Tail(a, b, q, r, t))
  {
  }

  lemma PackageFromIs(s: string, a: Action, b: nat, q: nat, x: Tail)
    requires 0 < b <= |s| && IsSpace(s[b - 1]) && NextNewline(s, b) == |s|
    requires LastPackageEnd(s, b + 1, |s| + 1) == Some(q) && VersionsFrom(s, a, b, q) == Some(x)
    ensures PackageFrom(s, a, b) == Some(x)
  {
  }

  lemma TailAtIs(s: string, j: nat, a: Action, x: Tail)
    requires j + 2 <= |s| && s[j] == ']' && IsSpace(s[j + 1]) && ActionAt(s, j + 2) == Some(a)
    requires PackageFrom(s, a, PackageStart(s, j + 2)) == Some(x)
    ensures TailAt(s, j) == Some(x)
  {
  }

  /** The tail from `j`: its keyword is `a`, the package spans [b, q), `from`
    * ends at `r` and `to` at `t`; all that is needed is what the characters are. */
  lemma TailSearch(s: string, j: nat, a: Action, b: nat, q: nat, r: nat, t: Option<nat>)
    requires j + 2 < b < q && q + 3 <= r < |s|
    requires s[j] == ']' && IsSpace(s[j + 1]) && ActionAt(s, j + 2) == Some(a) && PackageStart(s, j + 2) == b
    requires IsSpace(s[b - 1]) && s[q] == ' ' && s[q + 1] == '(' && ClosesAt(s, r)
    requires (if ArrowAt(s, r) then ToClose(s, r + 4) else None) == t
    requires forall k :: j <= k < |s| ==> s[k] != '\n'
    requires forall k :: q + 1 < k < |s| ==> s[k] != '('
    requires forall k :: q + 2 <= k < r ==> s[k] != ')' && !IsSpace(s[k])
    ensures TailAt(s, j) == Some(Tail(a, b, q, r, t))
  {
    NoNewlineReachesEnd(s, j);
    FromMatches(s, q, r);
    VersionsFromIs(s, a, b, q, r, t);
    PackageEndMatches(s, b, q);
    PackageFromIs(s, a, b, q, Tail(a, b, q, r, t));
    TailAtIs(s, j, a, Tail(a, b, q, r, t));
  }

  /** From the tag's ']' on, a well-formed tail gives the expected captures. */
  lemma TailMatches(s: string, j: nat, a: Action, pkg: string, from: string, to: Option<string>,
                    b: nat, q: nat, r: nat)
    requires j <= |s| && s[j..] == TailPart(Keyword(a), pkg, from, Close(to))
    requires PackageFields(pkg, from, to)
    requires b == j + 3 + |Keyword(a)| && q == b + |pkg| && r == q + 2 + |from|
    ensures r < |s| && s[b..q] == pkg && s[q + 2..r] == from
    ensures forall k :: j <= k < |s| ==> s[k] != '\n'
    ensures forall k :: j < k < |s| ==> s[k] != ']'
    ensures TailAt(s, j) == Some(Tail(a, b, q, r, if to.Some? then Some(|s| - 1) else None))
    ensures to.Some? ==> s[r + 4..|s| - 1] == to.value
  {
    KeywordAvoids(a);
    CloseAvoids(to);
    TailSlices(s, j, Keyword(a), pkg, from, Close(to), b, q, r);
    TailChars(s, j, Keyword(a), pkg, from, Close(to), b, q, r);
    CloseMatches(s, r, to);
    KeywordAtUnique(s, j + 2, a);
    TailSearch(s, j, a, b, q, r, if to.Some? then Some(|s| - 1) else None);
  }

  // ---------------------------------------------------------------- the whole line

  /** The date closes at `|date| + 1`: the two timestamp shapes differ at index 10. */
  lemma DateCloseIs(s: string, date: string)
    requires |date| + 2 <= |s| && s[0] == '[' && s[1..|date| + 1] == date && s[|date| + 1] == ']'
    requires MinuteShape(date) || OffsetShape(date)
    ensures DateClose(s) == Some(|date| + 1)
  {
    if OffsetShape(date) {
      assert s[1..17][10] == date[10];
    }
  }

  /** The tag starts right after the timestamp's "] [". */
  lemma TagStartIs(s: string, date: string)
    requires |date| + 4 <= |s| && s[0] == '[' && s[1..|date| + 1] == date && s[|date| + 1] == ']'
    requires s[|date| + 2] == ' ' && s[|date| + 3] == '['
    requires MinuteShape(date) || OffsetShape(date)
    ensures TagStart(s) == Some(|date| + 4)
  {
    DateCloseIs(s, date);
  }

  /** The greedy tag closes at the tail's ']', the last one on the line. */
  lemma TagMatches(s: string, c: nat, j: nat, tag: string)
    requires c + |tag| == j <= |s| && tag != [] && s[c..j] == tag && Avoids(tag, {'\n'})
    requires forall k :: j <= k < |s| ==> s[k] != '\n'
    requires forall k :: j < k < |s| ==> s[k] != ']'
    requires BracketEndsAt(s, j)
    ensures LastBracketEnd(s, c + 1, NextNewline(s, c)) == Some(j)
  {
    SliceAvoids(s, c, j, tag, {'\n'});
    NoNewlineReachesEnd(s, c);
    NoBracketEndAfter(s, j);
    LastBracketEndIs(s, c + 1, |s|, j);
  }

  /** The match of a well-formed line. */
  lemma LineMatch(date: string, tag: string, a: Action, pkg: string, from: string, to: Option<string>,
                  s: string, j: nat, b: nat, q: nat, r: nat)
    requires WellFormedFields(date, tag, pkg, from, to) && s == Line(date, tag, a, pkg, from, to)
    requires j == |date| + 4 + |tag| && b == j + 3 + |Keyword(a)| && q == b + |pkg| && r == q + 2 + |from|
    ensures Match(s) == Some(Spans(|date| + 1, j, Tail(a, b, q, r, if to.Some? then Some(|s| - 1) else None)))
    ensures s[1..|date| + 1] == date && s[b..q] == pkg && s[q + 2..r] == from
    ensures to.Some? ==> s[r + 4..|s| - 1] == to.value
  {
    var t := TailPart(Keyword(a), pkg, from, Close(to));
    LineSlices(s, date, tag, t);
    TailMatches(s, j, a, pkg, from, to, b, q, r);
    TagStartIs(s, date);
    DateCloseIs(s, date);
    TagMatches(s, |date| + 4, j, tag);
  }

  /** The event built from captures that hold the given fields. */
  lemma CapturedIs(s: string, m: Spans, date: string, a: Action, pkg: string, from: string, to: Option<string>)
    requires SpansFit(s, m) && s[1..m.close] == date && m.tail.action == a
    requires s[m.tail.pkgStart..m.tail.pkgEnd] == pkg && s[m.tail.pkgEnd + 2..m.tail.fromEnd] == from
    requires m.tail.toEnd.Some? <==> to.Some?
    requires to.Some? ==> s[m.tail.fromEnd + 4..m.tail.toEnd.value] == to.value
    ensures ParseDate(date).None? ==> Captured(s, m) == Err(DatePanic)
    ensures ParseDate(date).Some? ==> Captured(s, m) == Ok(PacmanEvent(ParseDate(date).value, a, pkg, from, to))
  {
  }

  /** The field slices of a line, read off the spans of its match. */
  lemma SpansCapture(s: string, m: Spans, date: string, a: Action, pkg: string, from: string, to: Option<string>,
                     b: nat, q: nat, r: nat)
    requires m.close == |date| + 1 && m.tail.action == a
    requires m.tail.pkgStart == b && m.tail.pkgEnd == q && m.tail.fromEnd == r
    requires m.tail.toEnd == (if to.Some? then Some(|s| - 1) else None)
    requires |date| + 1 <= |s| && s[1..|date| + 1] == date
    requires b <= q <= |s| && s[b..q] == pkg && q + 2 <= r <= |s| && s[q + 2..r] == from
    requires to.Some? ==> r + 4 <= |s| - 1 && s[r + 4..|s| - 1] == to.value
    ensures s[1..m.close] == date && s[m.tail.pkgStart..m.tail.pkgEnd] == pkg
    ensures s[m.tail.pkgEnd + 2..m.tail.fromEnd] == from
    ensures m.tail.toEnd.Some? <==> to.Some?
    ensures to.Some? ==> s[m.tail.fromEnd + 4..m.tail.toEnd.value] == to.value
  {
  }

  /** `from_str` returns the event of the match. */
  lemma FromStrOfMatch(s: string, m: Spans, date: string, a: Action, pkg: string, from: string, to: Option<string>)
    requires Match(s) == Some(m) && s[1..m.close] == date && m.tail.action == a
    requires s[m.tail.pkgStart..m.tail.pkgEnd] == pkg && s[m.tail.pkgEnd + 2..m.tail.fromEnd] == from
    requires m.tail.toEnd.Some? <==> to.Some?
    requires to.Some? ==> s[m.tail.fromEnd + 4..m.tail.toEnd.value] == to.value
    ensures ParseDate(date).None? ==> LineParser.FromStr(s) == Err(DatePanic)
    ensures ParseDate(date).Some? ==> LineParser.FromStr(s) == Ok(PacmanEvent(ParseDate(date).value, a, pkg, from, to))
  {
    CapturedIs(s, m, date, a, pkg, from, to);
  }

  /** ROUND TRIP: a well-formed line parses back into the fields it was built
    * from, the timestamp converted by `parse_date`; an impossible timestamp
    * is the panic. */
  lemma FromStrLine(date: string, tag: string, a: Action, pkg: string, from: string, to: Option<string>)
    requires WellFormedFields(date, tag, pkg, from, to)
    ensures ParseDate(date).None? ==> LineParser.FromStr(Line(date, tag, a, pkg, from, to)) == Err(DatePanic)
    ensures ParseDate(date).Some? ==>
      LineParser.FromStr(Line(date, tag, a, pkg, from, to)) == Ok(PacmanEvent(ParseDate(date).value, a, pkg, from, to))
  {
    var s := Line(date, tag, a, pkg, from, to);
    var j := |date| + 4 + |tag|;
    var b := j + 3 + |Keyword(a)|;
    var q := b + |pkg|;
    var r := q + 2 + |from|;
    LineMatch(date, tag, a, pkg, from, to, s, j, b, q, r);
    var m := Spans(|date| + 1, j, Tail(a, b, q, r, if to.Some? then Some(|s| - 1) else None));
    SpansCapture(s, m, date, a, pkg, from, to, b, q, r);
    FromStrOfMatch(s, m, date, a, pkg, from, to);
  }

  // ---------------------------------------------------------------- rejection

  /** A match is anchored at the tag's ']': the action keyword follows it,
    * literally and in lower case, after one whitespace character, and the
    * package after one more. */
  lemma MatchedKeyword(s: string, m: Spans)
    requires Match(s) == Some(m)
    ensures m.bracket + 1 < |s| && s[m.bracket] == ']' && IsSpace(s[m.bracket + 1])
    ensures KeywordAt(s, m.bracket + 2, m.tail.action)
    ensures m.tail.pkgStart == m.bracket + 3 + |Keyword(m.tail.action)|
  {
    TailAtKeyword(s, m.bracket, m.tail);
  }

  /** A line in which none of the five lowercase keywords occurs is rejected:
    * every match needs one right after the tag. */
  lemma RejectedWithoutKeyword(s: string)
    requires forall k: nat :: k < |s| ==> ActionAt(s, k).None?
    ensures LineParser.FromStr(s) == Err(InvalidFormat)
  {
  }
}
