// chrono's `NaiveDateTime` as the program uses it: a calendar date and a
// wall-clock time with whole seconds, ordered chronologically and rendered
// by `to_string` as "YYYY-MM-DD HH:MM:SS".
module DateTimes {
  import opened Chars
  import opened Orderings

  datatype DateTime = DateTime(year: int, month: int, day: int, hour: int, minute: int, second: int)

  predicate IsLeapYear(y: int) {
    (y % 4 == 0 && y % 100 != 0) || y % 400 == 0
  }

  function DaysInMonth(y: int, m: int): (n: int)
    requires 1 <= m <= 12
    ensures 28 <= n <= 31
  {
    if m == 2 then (if IsLeapYear(y) then 29 else 28)
    else if m == 4 || m == 6 || m == 9 || m == 11 then 30
    else 31
  }

  /** A date and time chrono can represent with a four-digit year. A second
    * of 60 is chrono's representation of a leap second. */
  predicate Valid(t: DateTime) {
    0 <= t.year <= 9999 && 1 <= t.month <= 12 && 1 <= t.day <= DaysInMonth(t.year, t.month) &&
    0 <= t.hour <= 23 && 0 <= t.minute <= 59 && 0 <= t.second <= 60
  }

  /** Chronological comparison: field by field, most significant first. */
  function Compare(a: DateTime, b: DateTime): (o: Ordering)
    ensures o == Equal <==> a == b
  {
    if a.year != b.year then CompareInt(a.year, b.year)
    else if a.month != b.month then CompareInt(a.month, b.month)
    else if a.day != b.day then CompareInt(a.day, b.day)
    else if a.hour != b.hour then CompareInt(a.hour, b.hour)
    else if a.minute != b.minute then CompareInt(a.minute, b.minute)
    else CompareInt(a.second, b.second)
  }

  /** Seconds since 0000-01-01 00:00:00 counting every minute as 61 seconds:
    * strictly monotone in the fields, so it orders dates like `Compare`. */
  function Rank(t: DateTime): int {
    ((((t.year * 13 + t.month) * 32 + t.day) * 24 + t.hour) * 60 + t.minute) * 61 + t.second
  }

  lemma CompareByRank(a: DateTime, b: DateTime)
    requires Valid(a) && Valid(b)
    ensures Compare(a, b) == CompareInt(Rank(a), Rank(b))
  {
  }

  lemma CompareFlip(a: DateTime, b: DateTime)
    ensures Compare(b, a) == Flip(Compare(a, b))
  {
  }

  lemma CompareTransitive(a: DateTime, b: DateTime, c: DateTime)
    requires Compare(a, b) == Less && Compare(b, c) == Less
    ensures Compare(a, c) == Less
  {
  }

  function Digit(n: int): (c: char)
    requires 0 <= n <= 9
    ensures IsDigit(c) && DigitValue(c) == n
  {
    ('0' as int + n) as char
  }

  /** Zero-padded two-digit rendering. */
  function Pad2(n: int): (s: string)
    requires 0 <= n <= 99
    ensures |s| == 2 && AllDigits(s)
  {
    [Digit(n / 10), Digit(n % 10)]
  }

  /** Zero-padded four-digit rendering. */
  function Pad4(n: int): (s: string)
    requires 0 <= n <= 9999
    ensures |s| == 4 && AllDigits(s)
  {
    Pad2(n / 100) + Pad2(n % 100)
  }

  /** `NaiveDateTime::to_string` for a whole-second time. */
  function ToString(t: DateTime): (s: string)
    requires Valid(t)
    ensures |s| == 19
  {
    DatePart(t) + " " + TimePart(t)
  }

  function DatePart(t: DateTime): (s: string)
    requires Valid(t)
    ensures |s| == 10
  {
    Pad4(t.year) + "-" + Pad2(t.month) + "-" + Pad2(t.day)
  }

  function TimePart(t: DateTime): (s: string)
    requires Valid(t)
    ensures |s| == 8
  {
    Pad2(t.hour) + ":" + Pad2(t.minute) + ":" + Pad2(t.second)
  }

  /** The value of the `n` ASCII digits of `s` starting at `i`. */
  function NumAt(s: string, i: nat, n: nat): (v: nat)
    requires i + n <= |s| && AllDigits(s[i..i + n])
  {
    DecimalValue(s[i..i + n])
  }

  lemma DecimalOfTwo(w: string)
    requires |w| == 2 && AllDigits(w)
    ensures DecimalValue(w) == DigitValue(w[0]) * 10 + DigitValue(w[1])
  {
    assert w[..1][..0] == [];
    assert DecimalValue(w[..1]) == DigitValue(w[0]);
  }

  lemma DecimalOfFour(w: string)
    requires |w| == 4 && AllDigits(w)
    ensures DecimalValue(w) == DecimalValue(w[..2]) * 100 + DecimalValue(w[2..])
  {
    DecimalOfTwo(w[..2]);
    DecimalOfTwo(w[2..]);
    assert w[..3][..2] == w[..2];
    assert DecimalValue(w[..3]) == DecimalValue(w[..2]) * 10 + DigitValue(w[2]);
  }

  lemma Pad2Value(s: string, i: nat)
    requires i + 2 <= |s| && AllDigits(s[i..i + 2])
    ensures NumAt(s, i, 2) <= 99 && Pad2(NumAt(s, i, 2)) == s[i..i + 2]
  {
    DecimalOfTwo(s[i..i + 2]);
  }

  lemma Pad4Value(s: string, i: nat)
    requires i + 4 <= |s| && AllDigits(s[i..i + 4])
    ensures NumAt(s, i, 4) <= 9999 && Pad4(NumAt(s, i, 4)) == s[i..i + 4]
  {
    var w := s[i..i + 4];
    DecimalOfFour(w);
    assert w[..2] == s[i..i + 2] && w[2..] == s[i + 2..i + 4];
    Pad2Value(s, i);
    Pad2Value(s, i + 2);
  }

  /** Reads a rendered timestamp back into its fields. */
  function FromString(s: string): (t: DateTime)
    requires |s| == 19 && AllDigits(s[0..4]) && AllDigits(s[5..7]) && AllDigits(s[8..10]) &&
             AllDigits(s[11..13]) && AllDigits(s[14..16]) && AllDigits(s[17..19])
  {
    DateTime(NumAt(s, 0, 4), NumAt(s, 5, 2), NumAt(s, 8, 2),
             NumAt(s, 11, 2), NumAt(s, 14, 2), NumAt(s, 17, 2))
  }

  lemma Pad2Inverse(n: int)
    requires 0 <= n <= 99
    ensures DecimalValue(Pad2(n)) == n
  {
    DecimalOfTwo(Pad2(n));
  }

  lemma Pad4Inverse(n: int)
    requires 0 <= n <= 9999
    ensures DecimalValue(Pad4(n)) == n
  {
    var s := Pad4(n);
    DecimalOfFour(s);
    assert s[..2] == Pad2(n / 100) && s[2..] == Pad2(n % 100);
    Pad2Inverse(n / 100);
    Pad2Inverse(n % 100);
  }

  /** Rendering loses nothing: the rendered string reads back as the same time. */
  lemma ToStringRoundTrip(t: DateTime)
    requires Valid(t)
    ensures var s := ToString(t);
      AllDigits(s[0..4]) && AllDigits(s[5..7]) && AllDigits(s[8..10]) &&
      AllDigits(s[11..13]) && AllDigits(s[14..16]) && AllDigits(s[17..19]) &&
      FromString(s) == t
  {
    var s := ToString(t);
    assert s[..10] == DatePart(t) && s[11..] == TimePart(t);
    assert s[0..4] == Pad4(t.year);
    assert s[5..7] == Pad2(t.month);
    assert s[8..10] == Pad2(t.day);
    assert s[11..13] == Pad2(t.hour);
    assert s[14..16] == Pad2(t.minute);
    assert s[17..19] == Pad2(t.second);
    Pad4Inverse(t.year);
    Pad2Inverse(t.month);
    Pad2Inverse(t.day);
    Pad2Inverse(t.hour);
    Pad2Inverse(t.minute);
    Pad2Inverse(t.second);
  }

  /** Distinct times render differently. */
  lemma ToStringInjective(a: DateTime, b: DateTime)
    requires Valid(a) && Valid(b) && ToString(a) == ToString(b)
    ensures a == b
  {
    ToStringRoundTrip(a);
    ToStringRoundTrip(b);
  }
}
