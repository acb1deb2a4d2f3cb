// The log lines of the parser's unit tests (src/pacman/mod.rs), each built
// with `Line` from the fields the test writes out in one string, and the
// events they parse into.
module LineExamples {
  import opened Wrappers
  import opened Chars
  import opened DateTimes
  import opened Actions
  import opened PacmanEvents
  import opened LineParser
  import opened LineGrammar

  /** Two digit characters make a digit string. */
  lemma TwoDigits(w: string)
    requires |w| == 2 && IsDigit(w[0]) && IsDigit(w[1])
    ensures AllDigits(w)
  {
    forall k | 0 <= k < 2 ensures IsDigit(w[k]) {
      if k == 0 {} else {}
    }
  }

  /** A "YYYY-MM-DD HH:MM" timestamp, checked character by character. */
  lemma MinuteShapeOf(d: string)
    requires |d| == 16 && d[4] == '-' && d[7] == '-' && d[10] == ' ' && d[13] == ':'
    requires IsDigit(d[0]) && IsDigit(d[1]) && IsDigit(d[2]) && IsDigit(d[3]) && IsDigit(d[5]) && IsDigit(d[6])
    requires IsDigit(d[8]) && IsDigit(d[9]) && IsDigit(d[11]) && IsDigit(d[12]) && IsDigit(d[14]) && IsDigit(d[15])
    ensures MinuteShape(d)
  {
    TwoDigits(d[0..2]);
    TwoDigits(d[2..4]);
    assert d[0..4] == d[0..2] + d[2..4];
    TwoDigits(d[5..7]);
    TwoDigits(d[8..10]);
    TwoDigits(d[11..13]);
    TwoDigits(d[14..16]);
  }

  /** A "YYYY-MM-DDTHH:MM:SS+HHMM" timestamp, checked character by character. */
  lemma OffsetShapeOf(d: string)
    requires |d| == 24 && d[4] == '-' && d[7] == '-' && d[10] == 'T' && d[13] == ':' && d[16] == ':'
    requires d[19] == '+' || d[19] == '-'
    requires IsDigit(d[0]) && IsDigit(d[1]) && IsDigit(d[2]) && IsDigit(d[3]) && IsDigit(d[5]) && IsDigit(d[6])
    requires IsDigit(d[8]) && IsDigit(d[9]) && IsDigit(d[11]) && IsDigit(d[12]) && IsDigit(d[14]) && IsDigit(d[15])
    requires IsDigit(d[17]) && IsDigit(d[18]) && IsDigit(d[20]) && IsDigit(d[21]) && IsDigit(d[22]) && IsDigit(d[23])
    ensures OffsetShape(d)
  {
    TwoDigits(d[0..2]);
    TwoDigits(d[2..4]);
    assert d[0..4] == d[0..2] + d[2..4];
    TwoDigits(d[5..7]);
    TwoDigits(d[8..10]);
    TwoDigits(d[11..13]);
    TwoDigits(d[14..16]);
    TwoDigits(d[17..19]);
    TwoDigits(d[20..22]);
    TwoDigits(d[22..24]);
  }

  /** Two digits read as a number. */
  lemma NumAtTwo(s: string, i: nat)
    requires i + 2 <= |s| && AllDigits(s[i..i + 2])
    ensures NumAt(s, i, 2) == DigitValue(s[i]) * 10 + DigitValue(s[i + 1])
  {
    DecimalOfTwo(s[i..i + 2]);
  }

  /** Four digits read as a number. */
  lemma NumAtFour(s: string, i: nat)
    requires i + 4 <= |s| && AllDigits(s[i..i + 4])
    ensures NumAt(s, i, 4) == DigitValue(s[i]) * 1000 + DigitValue(s[i + 1]) * 100 + DigitValue(s[i + 2]) * 10 + DigitValue(s[i + 3])
  {
    var w := s[i..i + 4];
    DecimalOfFour(w);
    DecimalOfTwo(w[..2]);
    DecimalOfTwo(w[2..]);
  }

  /** The date and minute fields of a timestamp, written out digit by digit. */
  lemma DateFields(d: string)
    requires |d| >= 16 && DayShape(d) && AllDigits(d[11..13]) && AllDigits(d[14..16])
    ensures NumAt(d, 0, 4) == DigitValue(d[0]) * 1000 + DigitValue(d[1]) * 100 + DigitValue(d[2]) * 10 + DigitValue(d[3])
    ensures NumAt(d, 5, 2) == DigitValue(d[5]) * 10 + DigitValue(d[6])
    ensures NumAt(d, 8, 2) == DigitValue(d[8]) * 10 + DigitValue(d[9])
    ensures NumAt(d, 11, 2) == DigitValue(d[11]) * 10 + DigitValue(d[12])
    ensures NumAt(d, 14, 2) == DigitValue(d[14]) * 10 + DigitValue(d[15])
  {
    NumAtFour(d, 0);
    NumAtTwo(d, 5);
    NumAtTwo(d, 8);
    NumAtTwo(d, 11);
    NumAtTwo(d, 14);
  }

  /** The seconds and offset fields of an offset timestamp, digit by digit. */
  lemma OffsetFields(d: string)
    requires OffsetShape(d)
    ensures NumAt(d, 17, 2) == DigitValue(d[17]) * 10 + DigitValue(d[18])
    ensures NumAt(d, 20, 2) == DigitValue(d[20]) * 10 + DigitValue(d[21])
    ensures NumAt(d, 22, 2) == DigitValue(d[22]) * 10 + DigitValue(d[23])
  {
    NumAtTwo(d, 17);
    NumAtTwo(d, 20);
    NumAtTwo(d, 22);
  }

  // ---------------------------------------------------------------- the test lines

  /** "[2019-07-05 22:10] [ALPM] upgraded libva (2.4.1-1 -> 2.5.0-1)" */
  lemma LibvaUpgraded()
    ensures LineParser.FromStr(Line("2019-07-05 22:10", "ALPM", Upgraded, "libva", "2.4.1-1", Some("2.5.0-1")))
         == Ok(PacmanEvent(DateTime(2019, 7, 5, 22, 10, 0), Upgraded, "libva", "2.4.1-1", Some("2.5.0-1")))
  {
    LibvaUpgradedFields();
    LibvaUpgradedDate();
    FromStrLine("2019-07-05 22:10", "ALPM", Upgraded, "libva", "2.4.1-1", Some("2.5.0-1"));
  }

  lemma LibvaUpgradedFields()
    ensures WellFormedFields("2019-07-05 22:10", "ALPM", "libva", "2.4.1-1", Some("2.5.0-1"))
  {
    MinuteShapeOf("2019-07-05 22:10");
  }

  lemma LibvaUpgradedDate()
    ensures MinuteShape("2019-07-05 22:10") && ParseDate("2019-07-05 22:10") == Some(DateTime(2019, 7, 5, 22, 10, 0))
  {
    var d := "2019-07-05 22:10";
    MinuteShapeOf(d);
    DateFields(d);
  }

  /** "[2019-06-26 10:47] [ALPM] installed ansible (2.8.1-1)" */
  lemma AnsibleInstalled()
    ensures LineParser.FromStr(Line("2019-06-26 10:47", "ALPM", Installed, "ansible", "2.8.1-1", None))
         == Ok(PacmanEvent(DateTime(2019, 6, 26, 10, 47, 0), Installed, "ansible", "2.8.1-1", None))
  {
    AnsibleInstalledFields();
    AnsibleInstalledDate();
    FromStrLine("2019-06-26 10:47", "ALPM", Installed, "ansible", "2.8.1-1", None);
  }

  lemma AnsibleInstalledFields()
    ensures WellFormedFields("2019-06-26 10:47", "ALPM", "ansible", "2.8.1-1", None)
  {
    MinuteShapeOf("2019-06-26 10:47");
  }

  lemma AnsibleInstalledDate()
    ensures MinuteShape("2019-06-26 10:47") && ParseDate("2019-06-26 10:47") == Some(DateTime(2019, 6, 26, 10, 47, 0))
  {
    var d := "2019-06-26 10:47";
    MinuteShapeOf(d);
    DateFields(d);
  }

  /** "[2018-12-15 00:22] [ALPM] downgraded mps-youtube (0.2.8-2 -> 0.2.8-1)" */
  lemma MpsYoutubeDowngraded()
    ensures LineParser.FromStr(Line("2018-12-15 00:22", "ALPM", Downgraded, "mps-youtube", "0.2.8-2", Some("0.2.8-1")))
         == Ok(PacmanEvent(DateTime(2018, 12, 15, 0, 22, 0), Downgraded, "mps-youtube", "0.2.8-2", Some("0.2.8-1")))
  {
    MpsYoutubeDowngradedFields();
    MpsYoutubeDowngradedDate();
    FromStrLine("2018-12-15 00:22", "ALPM", Downgraded, "mps-youtube", "0.2.8-2", Some("0.2.8-1"));
  }

  lemma MpsYoutubeDowngradedFields()
    ensures WellFormedFields("2018-12-15 00:22", "ALPM", "mps-youtube", "0.2.8-2", Some("0.2.8-1"))
  {
    MinuteShapeOf("2018-12-15 00:22");
  }

  lemma MpsYoutubeDowngradedDate()
    ensures MinuteShape("2018-12-15 00:22") && ParseDate("2018-12-15 00:22") == Some(DateTime(2018, 12, 15, 0, 22, 0))
  {
    var d := "2018-12-15 00:22";
    MinuteShapeOf(d);
    DateFields(d);
  }

  /** "[2019-06-26 10:47] [ALPM] reinstalled ansible (2.8.1-1)" */
  lemma AnsibleReinstalled()
    ensures LineParser.FromStr(Line("2019-06-26 10:47", "ALPM", Reinstalled, "ansible", "2.8.1-1", None))
         == Ok(PacmanEvent(DateTime(2019, 6, 26, 10, 47, 0), Reinstalled, "ansible", "2.8.1-1", None))
  {
    AnsibleReinstalledFields();
    AnsibleReinstalledDate();
    FromStrLine("2019-06-26 10:47", "ALPM", Reinstalled, "ansible", "2.8.1-1", None);
  }

  lemma AnsibleReinstalledFields()
    ensures WellFormedFields("2019-06-26 10:47", "ALPM", "ansible", "2.8.1-1", None)
  {
    MinuteShapeOf("2019-06-26 10:47");
  }

  lemma AnsibleReinstalledDate()
    ensures MinuteShape("2019-06-26 10:47") && ParseDate("2019-06-26 10:47") == Some(DateTime(2019, 6, 26, 10, 47, 0))
  {
    var d := "2019-06-26 10:47";
    MinuteShapeOf(d);
    DateFields(d);
  }

  /** "[2019-07-04 14:05] [ALPM] removed gnome-common (3.18.0-3)" */
  lemma GnomeCommonRemoved()
    ensures LineParser.FromStr(Line("2019-07-04 14:05", "ALPM", Removed, "gnome-common", "3.18.0-3", None))
         == Ok(PacmanEvent(DateTime(2019, 7, 4, 14, 5, 0), Removed, "gnome-common", "3.18.0-3", None))
  {
    GnomeCommonRemovedFields();
    GnomeCommonRemovedDate();
    FromStrLine("2019-07-04 14:05", "ALPM", Removed, "gnome-common", "3.18.0-3", None);
  }

  lemma GnomeCommonRemovedFields()
    ensures WellFormedFields("2019-07-04 14:05", "ALPM", "gnome-common", "3.18.0-3", None)
  {
    MinuteShapeOf("2019-07-04 14:05");
  }

  lemma GnomeCommonRemovedDate()
    ensures MinuteShape("2019-07-04 14:05") && ParseDate("2019-07-04 14:05") == Some(DateTime(2019, 7, 4, 14, 5, 0))
  {
    var d := "2019-07-04 14:05";
    MinuteShapeOf(d);
    DateFields(d);
  }

  /** "[2019-10-23T20:25:18+0200] [ALPM] installed yay (9.4.2-1)": the
    * wall-clock time 20:25:18 is kept and the offset dropped. */
  lemma YayOffsetInstalled()
    ensures LineParser.FromStr(Line("2019-10-23T20:25:18+0200", "ALPM", Installed, "yay", "9.4.2-1", None))
         == Ok(PacmanEvent(DateTime(2019, 10, 23, 20, 25, 18), Installed, "yay", "9.4.2-1", None))
  {
    YayOffsetInstalledFields();
    YayOffsetInstalledDate();
    FromStrLine("2019-10-23T20:25:18+0200", "ALPM", Installed, "yay", "9.4.2-1", None);
  }

  lemma YayOffsetInstalledFields()
    ensures WellFormedFields("2019-10-23T20:25:18+0200", "ALPM", "yay", "9.4.2-1", None)
  {
    OffsetShapeOf("2019-10-23T20:25:18+0200");
  }

  lemma YayOffsetInstalledDate()
    ensures OffsetShape("2019-10-23T20:25:18+0200") && ParseDate("2019-10-23T20:25:18+0200") == Some(DateTime(2019, 10, 23, 20, 25, 18))
  {
    var d := "2019-10-23T20:25:18+0200";
    OffsetShapeOf(d);
    assert !MinuteShape(d);
    DateFields(d);
    OffsetFields(d);
  }

  /** "[2019-07-04 14:05] I AM NOT MATCHING" is rejected: no tag follows the timestamp. */
  lemma NotMatchingRejected()
    ensures LineParser.FromStr("[2019-07-04 14:05] I AM NOT MATCHING") == Err(InvalidFormat)
  {
    var s := "[2019-07-04 14:05] I AM NOT MATCHING";
    assert s[19] == 'I' && s[25] == 'O';
    assert TagStart(s).None?;
  }
}
