// `PacmanEvent::from_str`: the line grammar of the pacman log and the
// timestamp conversion `parse_date`, written as a scanner that makes the
// same choices as the regular expression of the source.
//
// The grammar, piece by piece:
//   '[' date ']' \s '[' .+ ']' \s action \s package=.+ \s '(' from=.+? ( \s '->' \s to=.+ )? ')'
// where `.` is any character but a newline and the match need not reach the
// end of the line. Where the repetitions leave a choice, the regular
// expression's backtracking order decides it:
//   - the bracketed tag `.+` is greedy: its closing ']' is the LAST one from
//     which the rest of the line still matches (`LastBracketEnd`);
//   - the package `.+` is greedy: it ends at the LAST whitespace-'(' from which
//     the rest still matches (`LastPackageEnd`);
//   - `from` is lazy: it ends at the FIRST position where either the arrow part
//     or a bare ')' follows, and there the arrow part is tried first
//     (`FirstClose`);
//   - `to` is greedy: it ends at the LAST ')' before the next newline (`ToClose`).
module LineParser {
  import opened Wrappers
  import opened Chars
  import opened DateTimes
  import opened Actions
  import opened PacmanEvents
  import Search

  /** InvalidFormat is the source's error result; DatePanic stands for the
    * `unwrap` in `parse_date` failing on a well-shaped but impossible date. */
  datatype LineError = InvalidFormat | DatePanic

  // ---------------------------------------------------------------- timestamps

  predicate DayShape(d: string)
    requires |d| >= 10
  {
    AllDigits(d[0..4]) && d[4] == '-' && AllDigits(d[5..7]) && d[7] == '-' && AllDigits(d[8..10])
  }

  /** `\d{4}-\d{2}-\d{2}\s\d{2}:\d{2}` */
  predicate MinuteShape(d: string) {
    |d| == 16 && DayShape(d) && IsSpace(d[10]) && AllDigits(d[11..13]) && d[13] == ':' &&
    AllDigits(d[14..16])
  }

  /** `\d{4}-\d{2}-\d{2}T\d{2}:\d{2}:\d{2}[+-]\d{4}` */
  predicate OffsetShape(d: string) {
    |d| == 24 && DayShape(d) && d[10] == 'T' && AllDigits(d[11..13]) && d[13] == ':' &&
    AllDigits(d[14..16]) && d[16] == ':' && AllDigits(d[17..19]) &&
    (d[19] == '+' || d[19] == '-') && AllDigits(d[20..22]) && AllDigits(d[22..24])
  }

  /** `parse_date`: the minute format first, with seconds 0; otherwise the
    * offset format, keeping the written wall-clock time and dropping the
    * offset. None is the panic of the `unwrap` when chrono rejects both
    * (an impossible date, or an offset of 24 hours or more, or offset
    * minutes of 60 or more). */
  function ParseDate(d: string): (r: Option<DateTime>)
    requires MinuteShape(d) || OffsetShape(d)
    ensures r.Some? ==> Valid(r.value)
    ensures MinuteShape(d) && r.Some? ==> r.value.second == 0
  {
    if MinuteShape(d) then
      var t := DateTime(NumAt(d, 0, 4), NumAt(d, 5, 2), NumAt(d, 8, 2), NumAt(d, 11, 2), NumAt(d, 14, 2), 0);
      if Valid(t) then Some(t) else None
    else
      var t := DateTime(NumAt(d, 0, 4), NumAt(d, 5, 2), NumAt(d, 8, 2),
                        NumAt(d, 11, 2), NumAt(d, 14, 2), NumAt(d, 17, 2));
      if Valid(t) && NumAt(d, 20, 2) <= 23 && NumAt(d, 22, 2) <= 59 then Some(t) else None
  }

  // ---------------------------------------------------------------- scanning
  //
  // Every repetition is a `Search.Last` (greedy) or a `Search.First` (lazy)
  // over the property "the rest of the pattern matches from here"; the
  // contracts carry only bounds, and what is found is stated by the lemmas at
  // the end of this module.

  function IsChar(s: string, c: char): nat -> bool {
    (i: nat) => i < |s| && s[i] == c
  }

  /** The first newline at or after `a`, or the end of the line. */
  function NextNewline(s: string, a: nat): (m: nat)
    requires a <= |s|
    ensures a <= m <= |s|
  {
    match Search.First(IsChar(s, '\n'), a, |s|)
    case Some(m) => m
    case None => |s|
  }

  /** `to=.+` then ')', from `a`: the last ')' after at least one character and
    * before the next newline. */
  function ToClose(s: string, a: nat): (r: Option<nat>)
    requires a <= |s|
    ensures r.Some? ==> a < r.value < |s| && s[r.value] == ')'
  {
    Search.Last(IsChar(s, ')'), a + 1, NextNewline(s, a))
  }

  /** The arrow part `\s->\s to )` matches from `r`. */
  predicate ArrowAt(s: string, r: nat) {
    r + 4 <= |s| && IsSpace(s[r]) && s[r + 1] == '-' && s[r + 2] == '>' && IsSpace(s[r + 3]) &&
    ToClose(s, r + 4).Some?
  }

  /** What may follow `from` matches from `r`: the arrow part, or a bare ')'. */
  predicate ClosesAt(s: string, r: nat) {
    ArrowAt(s, r) || (r < |s| && s[r] == ')')
  }

  function Closes(s: string): nat -> bool {
    (r: nat) => ClosesAt(s, r)
  }

  /** The lazy `from=.+?` starting at `a`: the first end at or after `lo`,
    * and not past the next newline, where the rest matches. */
  function FirstClose(s: string, a: nat, lo: nat): (r: Option<nat>)
    requires a <= |s|
    ensures r.Some? ==> lo <= r.value < |s|
  {
    Search.First(Closes(s), lo, NextNewline(s, a) + 1)
  }

  /** The package can end at `q`: whitespace, '(' and a nonempty `from` follow. */
  predicate PackageEndsAt(s: string, q: nat) {
    q + 2 <= |s| && IsSpace(s[q]) && s[q + 1] == '(' && FirstClose(s, q + 2, q + 3).Some?
  }

  function PackageEnds(s: string): nat -> bool {
    (q: nat) => PackageEndsAt(s, q)
  }

  /** The greedy package `.+`: the largest end in [lo, hi) that lets the rest match. */
  function LastPackageEnd(s: string, lo: nat, hi: nat): (r: Option<nat>)
    ensures r.Some? ==> lo <= r.value < hi && r.value + 2 <= |s|
  {
    Search.Last(PackageEnds(s), lo, hi)
  }

  predicate KeywordAt(s: string, i: nat, a: Action) {
    i + |Keyword(a)| <= |s| && s[i..i + |Keyword(a)|] == Keyword(a)
  }

  /** The alternation `upgraded|installed|removed|reinstalled|downgraded`, tried in that order. */
  function ActionAt(s: string, i: nat): Option<Action> {
    if KeywordAt(s, i, Upgraded) then Some(Upgraded)
    else if KeywordAt(s, i, Installed) then Some(Installed)
    else if KeywordAt(s, i, Removed) then Some(Removed)
    else if KeywordAt(s, i, Reinstalled) then Some(Reinstalled)
    else if KeywordAt(s, i, Downgraded) then Some(Downgraded)
    else None
  }

  /** The captures after the tag: the keyword, the package s[pkgStart..pkgEnd],
    * `from` s[pkgEnd + 2..fromEnd] and, when the arrow part matched, `to`
    * s[fromEnd + 4..toEnd]. */
  datatype Tail = Tail(action: Action, pkgStart: nat, pkgEnd: nat, fromEnd: nat, toEnd: Option<nat>)

  /** The package starts after the action keyword that starts at `i` and its whitespace. */
  function PackageStart(s: string, i: nat): (b: nat)
    requires ActionAt(s, i).Some?
  {
    i + |Keyword(ActionAt(s, i).value)| + 1
  }

  /** `from` and `to` once the package ends at `q`: the lazy `from` and, when
    * the arrow part matched, the greedy `to`. */
  function VersionsFrom(s: string, a: Action, b: nat, q: nat): (r: Option<Tail>)
    requires b < q
    ensures r.Some? ==> r.value.action == a && r.value.pkgStart == b && r.value.pkgEnd == q
    ensures r.Some? ==> q + 2 < r.value.fromEnd < |s|
    ensures r.Some? && r.value.toEnd.Some? ==> r.value.fromEnd + 4 < r.value.toEnd.value <= |s|
  {
    if q + 2 > |s| then None
    else
      match FirstClose(s, q + 2, q + 3)
      case None => None
      case Some(r) => Some(Tail(a, b, q, r, if ArrowAt(s, r) then ToClose(s, r + 4) else None))
  }

  /** The greedy package starting at `b`, after the keyword `a` and its whitespace. */
  function PackageFrom(s: string, a: Action, b: nat): (r: Option<Tail>)
    ensures r.Some? ==> r.value.action == a && r.value.pkgStart == b < r.value.pkgEnd
    ensures r.Some? ==> r.value.pkgEnd + 2 < r.value.fromEnd < |s|
    ensures r.Some? && r.value.toEnd.Some? ==> r.value.fromEnd + 4 < r.value.toEnd.value <= |s|
  {
    if b == 0 || b > |s| || !IsSpace(s[b - 1]) then None
    else
      match LastPackageEnd(s, b + 1, NextNewline(s, b) + 1)
      case None => None
      case Some(q) => VersionsFrom(s, a, b, q)
  }

  /** The rest of the pattern once the tag closes at `j`: ']', whitespace, the
    * keyword, whitespace, then the package and the versions. */
  function TailAt(s: string, j: nat): (r: Option<Tail>)
    ensures r.Some? ==> ActionAt(s, j + 2) == Some(r.value.action) && r.value.pkgStart == PackageStart(s, j + 2)
    ensures r.Some? ==> j + 2 < r.value.pkgStart < r.value.pkgEnd && r.value.pkgEnd + 2 < r.value.fromEnd < |s|
    ensures r.Some? && r.value.toEnd.Some? ==> r.value.fromEnd + 4 < r.value.toEnd.value <= |s|
  {
    if j + 2 > |s| || s[j] != ']' || !IsSpace(s[j + 1]) then None
    else
      match ActionAt(s, j + 2)
      case None => None
      case Some(a) => PackageFrom(s, a, PackageStart(s, j + 2))
  }

  /** The tag can close at `j`: the rest of the pattern matches from there. */
  predicate BracketEndsAt(s: string, j: nat) {
    TailAt(s, j).Some?
  }

  function BracketEnds(s: string): nat -> bool {
    (j: nat) => BracketEndsAt(s, j)
  }

  /** The greedy tag `.+`: the largest close in [lo, hi) that lets the rest match. */
  function LastBracketEnd(s: string, lo: nat, hi: nat): (r: Option<nat>)
    ensures r.Some? ==> lo <= r.value < hi
  {
    Search.Last(BracketEnds(s), lo, hi)
  }

  /** The index of the ']' that closes the timestamp; the two shapes differ at
    * index 10, so at most one of them applies. */
  function DateClose(s: string): (r: Option<nat>)
    ensures r.Some? ==> 1 < r.value < |s| && s[0] == '[' && s[r.value] == ']'
    ensures r.Some? ==> MinuteShape(s[1..r.value]) || OffsetShape(s[1..r.value])
  {
    if |s| >= 18 && s[0] == '[' && MinuteShape(s[1..17]) && s[17] == ']' then Some(17)
    else if |s| >= 26 && s[0] == '[' && OffsetShape(s[1..25]) && s[25] == ']' then Some(25)
    else None
  }

  /** Where the tag's content starts, when the timestamp is followed by "\s[". */
  function TagStart(s: string): (r: Option<nat>)
    ensures r.Some? ==> DateClose(s).Some? && r.value == DateClose(s).value + 3 <= |s|
  {
    match DateClose(s)
    case None => None
    case Some(k) => if k + 3 <= |s| && IsSpace(s[k + 1]) && s[k + 2] == '[' then Some(k + 3) else None
  }

  /** The capture positions of a match: the date is s[1..close], the tag
    * closes at `bracket`, the rest as in `Tail`. */
  datatype Spans = Spans(close: nat, bracket: nat, tail: Tail)

  predicate SpansFit(s: string, m: Spans) {
    1 < m.close < m.tail.pkgStart < m.tail.pkgEnd && m.tail.pkgEnd + 2 < m.tail.fromEnd < |s| &&
    (MinuteShape(s[1..m.close]) || OffsetShape(s[1..m.close])) &&
    (m.tail.toEnd.Some? ==> m.tail.fromEnd + 4 < m.tail.toEnd.value <= |s|)
  }

  /** The regular expression's match, if there is one. */
  function Match(s: string): (r: Option<Spans>)
    ensures r.Some? ==> SpansFit(s, r.value) && TailAt(s, r.value.bracket) == Some(r.value.tail)
  {
    match TagStart(s)
    case None => None
    case Some(c) =>
      match LastBracketEnd(s, c + 1, NextNewline(s, c))
      case None => None
      case Some(j) =>
        assert BracketEnds(s)(j);
        Some(Spans(DateClose(s).value, j, TailAt(s, j).value))
  }

  /** The event a match captures; the date conversion may panic. */
  function Captured(s: string, m: Spans): (r: Result<PacmanEvent, LineError>)
    requires SpansFit(s, m)
    ensures r.Ok? ==> Valid(r.value.date)
    ensures r.Ok? ==> r.value.package != [] && r.value.from != []
    ensures r.Ok? && r.value.to.Some? ==> r.value.to.value != []
    ensures r.Err? ==> r.error == DatePanic
  {
    var t := m.tail;
    var to := if t.toEnd.Some? then Some(s[t.fromEnd + 4..t.toEnd.value]) else None;
    match ParseDate(s[1..m.close])
    case None => Err(DatePanic)
    case Some(d) => Ok(PacmanEvent(d, t.action, s[t.pkgStart..t.pkgEnd], s[t.pkgEnd + 2..t.fromEnd], to))
  }

  /** `PacmanEvent::from_str`. */
  function FromStr(s: string): (r: Result<PacmanEvent, LineError>)
    ensures r.Ok? ==> Valid(r.value.date)
    ensures r.Ok? ==> r.value.package != [] && r.value.from != []
    ensures r.Ok? && r.value.to.Some? ==> r.value.to.value != []
    ensures r == Err(InvalidFormat) <==> Match(s).None?
  {
    match Match(s)
    case None => Err(InvalidFormat)
    case Some(m) => Captured(s, m)
  }

  // ---------------------------------------------------------------- timestamp properties

  lemma DayPartRendered(d: string, t: DateTime)
    requires |d| >= 10 && DayShape(d) && Valid(t)
    requires t.year == NumAt(d, 0, 4) && t.month == NumAt(d, 5, 2) && t.day == NumAt(d, 8, 2)
    ensures DatePart(t) == d[..10]
  {
    Pad4Value(d, 0);
    Pad2Value(d, 5);
    Pad2Value(d, 8);
    assert d[..10] == d[0..4] + "-" + d[5..7] + "-" + d[8..10];
  }

  /** A minute-precision timestamp gets seconds 0 and renders back as itself
    * with ":00" appended. */
  lemma ParseDateMinute(d: string)
    requires MinuteShape(d) && d[10] == ' ' && ParseDate(d).Some?
    ensures ParseDate(d).value.second == 0
    ensures DateTimes.ToString(ParseDate(d).value) == d + ":00"
  {
    var t := ParseDate(d).value;
    DayPartRendered(d, t);
    Pad2Value(d, 11);
    Pad2Value(d, 14);
    assert Pad2(0) == "00";
    assert d == d[..10] + " " + d[11..13] + ":" + d[14..16];
  }

  /** An offset timestamp keeps its written wall-clock fields: it renders as
    * its own date and time with the offset dropped. */
  lemma ParseDateOffset(d: string)
    requires OffsetShape(d) && ParseDate(d).Some?
    ensures DateTimes.ToString(ParseDate(d).value) == d[..10] + " " + d[11..19]
  {
    var t := ParseDate(d).value;
    DayPartRendered(d, t);
    Pad2Value(d, 11);
    Pad2Value(d, 14);
    Pad2Value(d, 17);
    assert d[11..19] == d[11..13] + ":" + d[14..16] + ":" + d[17..19];
  }

  /** Two offset timestamps that differ only in their offsets give the same time. */
  lemma ParseDateIgnoresOffset(d1: string, d2: string)
    requires OffsetShape(d1) && OffsetShape(d2) && d1[..19] == d2[..19]
    requires ParseDate(d1).Some? && ParseDate(d2).Some?
    ensures ParseDate(d1) == ParseDate(d2)
  {
    ParseDateOffset(d1);
    ParseDateOffset(d2);
    assert d1[..10] == d1[..19][..10] && d2[..10] == d2[..19][..10];
    assert d1[11..19] == d1[..19][11..] && d2[11..19] == d2[..19][11..];
    DateTimes.ToStringInjective(ParseDate(d1).value, ParseDate(d2).value);
  }

  // ---------------------------------------------------------------- search helpers

  /** `NextNewline` stops at the first newline. */
  lemma NextNewlineFirst(s: string, a: nat)
    requires a <= |s|
    ensures forall i :: a <= i < NextNewline(s, a) ==> s[i] != '\n'
    ensures NextNewline(s, a) < |s| ==> s[NextNewline(s, a)] == '\n'
  {
    Search.FirstMinimal(IsChar(s, '\n'), a, |s|);
    forall i | a <= i < NextNewline(s, a) ensures s[i] != '\n' {
      assert !IsChar(s, '\n')(i);
    }
  }

  /** With no newline from `c` on, every newline search from there reaches the end. */
  lemma NoNewlineReachesEnd(s: string, c: nat)
    requires c <= |s| && forall i :: c <= i < |s| ==> s[i] != '\n'
    ensures forall i :: c <= i <= |s| ==> NextNewline(s, i) == |s|
  {
    forall i | c <= i <= |s| ensures NextNewline(s, i) == |s| {
    }
  }

  /** `to` ends at the last ')' before the next newline. */
  lemma ToCloseIs(s: string, a: nat, i: nat)
    requires a <= |s| && a < i < NextNewline(s, a) && s[i] == ')'
    requires forall k :: i < k < NextNewline(s, a) ==> s[k] != ')'
    ensures ToClose(s, a) == Some(i)
  {
    forall k | i < k < NextNewline(s, a) ensures !IsChar(s, ')')(k) {
    }
    Search.LastIs(IsChar(s, ')'), a + 1, NextNewline(s, a), i);
  }

  /** The lazy `from` stops at a place where the rest matches, before the next newline. */
  lemma FirstCloseSound(s: string, a: nat, lo: nat)
    requires a <= |s|
    ensures FirstClose(s, a, lo).Some? ==>
      FirstClose(s, a, lo).value <= NextNewline(s, a) && ClosesAt(s, FirstClose(s, a, lo).value)
  {
    var r := FirstClose(s, a, lo);
    if r.Some? {
      assert Closes(s)(r.value);
    }
  }

  /** The lazy `from` stops at the first place where the rest can match. */
  lemma FirstCloseMinimal(s: string, a: nat, lo: nat)
    requires a <= |s|
    ensures FirstClose(s, a, lo).Some? ==> forall k :: lo <= k < FirstClose(s, a, lo).value ==> !ClosesAt(s, k)
    ensures FirstClose(s, a, lo).None? ==> forall k :: lo <= k <= NextNewline(s, a) ==> !ClosesAt(s, k)
  {
    var r := FirstClose(s, a, lo);
    Search.FirstMinimal(Closes(s), lo, NextNewline(s, a) + 1);
    forall k | lo <= k <= NextNewline(s, a) && (r.Some? ==> k < r.value) ensures !ClosesAt(s, k) {
      assert !Closes(s)(k);
    }
  }

  lemma FirstCloseIs(s: string, a: nat, lo: nat, r: nat)
    requires a <= |s| && lo <= r <= NextNewline(s, a) && ClosesAt(s, r)
    requires forall k :: lo <= k < r ==> !ClosesAt(s, k)
    ensures FirstClose(s, a, lo) == Some(r)
  {
    assert Closes(s)(r);
    forall k | lo <= k < r ensures !Closes(s)(k) {
    }
    Search.FirstIs(Closes(s), lo, NextNewline(s, a) + 1, r);
  }

  /** The greedy package ends where the rest of the line matches. */
  lemma LastPackageEndSound(s: string, lo: nat, hi: nat)
    ensures LastPackageEnd(s, lo, hi).Some? ==> PackageEndsAt(s, LastPackageEnd(s, lo, hi).value)
  {
    var r := LastPackageEnd(s, lo, hi);
    if r.Some? {
      assert PackageEnds(s)(r.value);
    }
  }

  /** The greedy package ends at the last place where the rest can match. */
  lemma LastPackageEndMaximal(s: string, lo: nat, hi: nat)
    ensures LastPackageEnd(s, lo, hi).Some? ==>
      forall q :: LastPackageEnd(s, lo, hi).value < q < hi ==> !PackageEndsAt(s, q)
    ensures LastPackageEnd(s, lo, hi).None? ==> forall q :: lo <= q < hi ==> !PackageEndsAt(s, q)
  {
    var r := LastPackageEnd(s, lo, hi);
    Search.LastMaximal(PackageEnds(s), lo, hi);
    forall q | (if r.Some? then r.value + 1 else lo) <= q < hi ensures !PackageEndsAt(s, q) {
      assert !PackageEnds(s)(q);
    }
  }

  lemma LastPackageEndIs(s: string, lo: nat, hi: nat, q: nat)
    requires lo <= q < hi && PackageEndsAt(s, q)
    requires forall k :: q < k < hi ==> !PackageEndsAt(s, k)
    ensures LastPackageEnd(s, lo, hi) == Some(q)
  {
    assert PackageEnds(s)(q);
    forall k | q < k < hi ensures !PackageEnds(s)(k) {
    }
    Search.LastIs(PackageEnds(s), lo, hi, q);
  }

  /** The greedy tag closes where the rest of the line matches. */
  lemma LastBracketEndSound(s: string, lo: nat, hi: nat)
    ensures LastBracketEnd(s, lo, hi).Some? ==> BracketEndsAt(s, LastBracketEnd(s, lo, hi).value)
  {
    var r := LastBracketEnd(s, lo, hi);
    if r.Some? {
      assert BracketEnds(s)(r.value);
    }
  }

  /** The greedy tag closes at the last place where the rest can match. */
  lemma LastBracketEndMaximal(s: string, lo: nat, hi: nat)
    ensures LastBracketEnd(s, lo, hi).Some? ==>
      forall j :: LastBracketEnd(s, lo, hi).value < j < hi ==> !BracketEndsAt(s, j)
    ensures LastBracketEnd(s, lo, hi).None? ==> forall j :: lo <= j < hi ==> !BracketEndsAt(s, j)
  {
    var r := LastBracketEnd(s, lo, hi);
    Search.LastMaximal(BracketEnds(s), lo, hi);
    forall j | (if r.Some? then r.value + 1 else lo) <= j < hi ensures !BracketEndsAt(s, j) {
      assert !BracketEnds(s)(j);
    }
  }

  lemma LastBracketEndIs(s: string, lo: nat, hi: nat, j: nat)
    requires lo <= j < hi && BracketEndsAt(s, j)
    requires forall k :: j < k < hi ==> !BracketEndsAt(s, k)
    ensures LastBracketEnd(s, lo, hi) == Some(j)
  {
    assert BracketEnds(s)(j);
    forall k | j < k < hi ensures !BracketEnds(s)(k) {
    }
    Search.LastIs(BracketEnds(s), lo, hi, j);
  }

  /** The alternation picks a keyword that is written at `i`, and fails only
    * when none is. */
  lemma ActionAtSound(s: string, i: nat)
    ensures ActionAt(s, i).Some? ==> KeywordAt(s, i, ActionAt(s, i).value)
    ensures ActionAt(s, i).None? <==> forall a: Action :: !KeywordAt(s, i, a)
  {
    if ActionAt(s, i).None? {
      forall a: Action ensures !KeywordAt(s, i, a) {
        match a
        case Installed => case Reinstalled => case Upgraded => case Removed => case Downgraded =>
      }
    }
  }

  /** No keyword is a prefix of another, so at most one matches at a position. */
  lemma KeywordAtUnique(s: string, i: nat, a: Action)
    requires KeywordAt(s, i, a)
    ensures ActionAt(s, i) == Some(a) && PackageStart(s, i) == i + |Keyword(a)| + 1
  {
    forall b: Action | KeywordAt(s, i, b) ensures b == a {
      assert Keyword(a)[0] == s[i] == Keyword(b)[0];
      assert Keyword(a)[2] == s[i + 2] == Keyword(b)[2];
    }
  }

  /** The action of a tail is the keyword written after the ']' and its whitespace. */
  lemma TailAtKeyword(s: string, j: nat, t: Tail)
    requires TailAt(s, j) == Some(t)
    ensures j + 1 < |s| && s[j] == ']' && IsSpace(s[j + 1])
    ensures KeywordAt(s, j + 2, t.action) && t.pkgStart == j + 3 + |Keyword(t.action)|
  {
    ActionAtKeyword(s, j + 2, t.action);
  }

  /** The keyword `ActionAt` reports is the one written at `i`. */
  lemma ActionAtKeyword(s: string, i: nat, a: Action)
    requires ActionAt(s, i) == Some(a)
    ensures KeywordAt(s, i, a) && PackageStart(s, i) == i + |Keyword(a)| + 1
  {
    match a
    case Upgraded => case Installed => case Removed => case Reinstalled => case Downgraded =>
  }
}
