// The argument validators of src/opt/cli.rs: a positive `u32` for the
// limit and window sizes, and a "YYYY-MM-DD HH:MM" date for `--after`.
module ArgValidators {
  import opened Wrappers
  import opened Chars
  import opened DateTimes
  import LineParser

  const NotPositiveMessage: string := "limit must be greater than 0"
  const NotNumberMessage: string := "Please provide a positive number"
  const DateMessage: string := "Please provide a date in the format \"YYYY-MM-DD HH:MM\""

  /** `validate_gt_0`: a `u32` parse, then a check for zero. */
  function ValidateGt0(s: string): (r: Result<(), string>)
    ensures r.Ok? <==> ParseU32(s).Some? && ParseU32(s).value > 0
    ensures r.Err? && ParseU32(s).Some? ==> r.error == NotPositiveMessage
    ensures r.Err? && ParseU32(s).None? ==> r.error == NotNumberMessage
  {
    match ParseU32(s)
    case Some(l) => if l > 0 then Ok(()) else Err(NotPositiveMessage)
    case None => Err(NotNumberMessage)
  }

  /** `NaiveDateTime::parse_from_str(s, "%Y-%m-%d %H:%M")`, on the zero-padded
    * shape only: the fields of a real date and time, seconds 0. */
  function ParseDateArg(s: string): (r: Option<DateTime>)
    ensures r.Some? ==> LineParser.MinuteShape(s) && Valid(r.value) && r.value.second == 0
  {
    if LineParser.MinuteShape(s) then LineParser.ParseDate(s) else None
  }

  /** `validate_date`. */
  function ValidateDate(s: string): (r: Result<(), string>)
    ensures r.Ok? <==> ParseDateArg(s).Some?
    ensures r.Err? ==> r.error == DateMessage
  {
    if ParseDateArg(s).Some? then Ok(()) else Err(DateMessage)
  }

  // ---------------------------------------------------------------- properties

  /** Every positive `u32`, written in decimal, is accepted. */
  lemma ValidateGt0AcceptsPositive(n: nat)
    requires 0 < n <= U32Max
    ensures ValidateGt0(NatToString(n)) == Ok(())
  {
    ParseU32RoundTrip(n);
  }

  /** Zero is a number, but not a positive one. */
  lemma ValidateGt0RejectsZero()
    ensures ValidateGt0("0") == Err(NotPositiveMessage)
  {
    assert "0" == NatToString(0);
    ParseU32RoundTrip(0);
  }

  /** A string holding a letter is not a number. */
  lemma ValidateGt0RejectsNonNumber(s: string, i: nat)
    requires i < |s| && !IsDigit(s[i]) && s[i] != '+'
    ensures ValidateGt0(s) == Err(NotNumberMessage)
  {
    ParseU32RejectsNonDigit(s, i);
  }

  /** The examples: "123" passes, "notanumber" and "0" do not. */
  lemma ValidateGt0Examples()
    ensures ValidateGt0("123") == Ok(())
    ensures ValidateGt0("notanumber") == Err(NotNumberMessage)
    ensures ValidateGt0("0") == Err(NotPositiveMessage)
  {
    assert "123" == NatToString(123);
    ValidateGt0AcceptsPositive(123);
    ValidateGt0RejectsNonNumber("notanumber", 0);
    ValidateGt0RejectsZero();
  }

  /** The minute-precision rendering of a time: its first 16 characters. */
  function MinuteString(t: DateTime): (s: string)
    requires Valid(t)
    ensures |s| == 16
  {
    DateTimes.ToString(t)[..16]
  }

  /** Every real date and time, written as "YYYY-MM-DD HH:MM", is accepted and
    * read back as itself. */
  lemma ParseDateArgRoundTrip(t: DateTime)
    requires Valid(t) && t.second == 0
    ensures ParseDateArg(MinuteString(t)) == Some(t)
    ensures ValidateDate(MinuteString(t)) == Ok(())
  {
    var full := DateTimes.ToString(t);
    var s := MinuteString(t);
    ToStringRoundTrip(t);
    assert full == Pad4(t.year) + "-" + Pad2(t.month) + "-" + Pad2(t.day) + " " +
      Pad2(t.hour) + ":" + Pad2(t.minute) + ":" + Pad2(t.second);
    assert s[4] == '-' && s[7] == '-' && s[10] == ' ' && s[13] == ':';
    assert s[0..4] == full[0..4] && s[5..7] == full[5..7] && s[8..10] == full[8..10];
    assert s[11..13] == full[11..13] && s[14..16] == full[14..16];
  }

  /** The examples: "2019-10-02 12:30" passes, "20191002 1230" does not. */
  lemma ValidateDateExamples()
    ensures ValidateDate("2019-10-02 12:30") == Ok(())
    ensures ValidateDate("20191002 1230") == Err(DateMessage)
  {
    var t := DateTime(2019, 10, 2, 12, 30, 0);
    assert Pad4(2019) == "2019" && Pad2(10) == "10" && Pad2(2) == "02";
    assert Pad2(12) == "12" && Pad2(30) == "30" && Pad2(0) == "00";
    assert MinuteString(t) == "2019-10-02 12:30";
    ParseDateArgRoundTrip(t);
  }

  /** "2019-01-01 12:00" is noon on the first of January 2019. */
  lemma AfterArgExample()
    ensures ParseDateArg("2019-01-01 12:00") == Some(DateTime(2019, 1, 1, 12, 0, 0))
  {
    var t := DateTime(2019, 1, 1, 12, 0, 0);
    assert Pad4(2019) == "2019" && Pad2(1) == "01" && Pad2(12) == "12" && Pad2(0) == "00";
    assert MinuteString(t) == "2019-01-01 12:00";
    ParseDateArgRoundTrip(t);
  }
}
