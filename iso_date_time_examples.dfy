/**
 * Concrete texts `ZonedDateTime.parse(text, ISO_DATE_TIME)` accepts or rejects,
 * beyond the feed's own `+00:00` sample.
 */
module IsoDateTimeExamples {
  import opened Wrappers
  import opened IsoDateTime

  /** The fixed prefix of the sample texts spells 2024-09-02T07:07. */
  lemma SamplePrefix(s: string)
    requires |s| >= 16 && s[..16] == "2024-09-02T07:07"
    ensures HasDateHourMinute(s)
    ensures NumberAt(s, 0, 4) == 2024 && NumberAt(s, 5, 2) == 9 && NumberAt(s, 8, 2) == 2
    ensures NumberAt(s, 11, 2) == 7 && NumberAt(s, 14, 2) == 7
  {
    assert forall j :: 0 <= j < 16 ==> s[j] == s[..16][j];
    assert s[0] == '2' && s[1] == '0' && s[2] == '2' && s[3] == '4';
    assert NumberAt(s, 0, 2) == 20;
    assert NumberAt(s, 0, 3) == 202;
    assert s[5] == '0' && s[6] == '9' && s[8] == '0' && s[9] == '2';
    assert s[11] == '0' && s[12] == '7' && s[14] == '0' && s[15] == '7';
  }

  /** `Z` as the offset, with a one-digit fraction of a second. */
  lemma ZuluWithFractionParses()
    ensures Parse("2024-09-02T07:07:20.5Z")
      == Some(ZonedDateTime(LocalDateTime(2024, 9, 2, 7, 7, 20, 500000000), 0))
  {
    var s := "2024-09-02T07:07:20.5Z";
    SamplePrefix(s);
    var tail := SecondsAt(s, 16);
    assert tail.next == 21;
    assert Pow10(8) == 100000000;
    assert tail.second == 20 && tail.nano == 500000000;
    assert OffsetAt(s, 21) == Some(0);
    assert ValidLocal(LocalDateTime(2024, 9, 2, 7, 7, 20, 500000000));
  }

  /** A negative offset, with the seconds left out. */
  lemma WestOffsetWithoutSecondsParses()
    ensures Parse("2024-09-02T07:07-05:30")
      == Some(ZonedDateTime(LocalDateTime(2024, 9, 2, 7, 7, 0, 0), -19800))
  {
    var s := "2024-09-02T07:07-05:30";
    SamplePrefix(s);
    assert SecondsAt(s, 16) == TimeTail(0, 0, 16);
    assert NumberAt(s, 17, 2) == 5 && NumberAt(s, 20, 2) == 30;
    assert OffsetAt(s, 16) == Some(-19800);
    assert ValidLocal(LocalDateTime(2024, 9, 2, 7, 7, 0, 0));
  }

  /** An offset without the colon between hours and minutes is rejected, as in Java. */
  lemma OffsetWithoutColonRejected()
    ensures Parse("2024-09-02T07:07:20+0530").None?
  {
    var s := "2024-09-02T07:07:20+0530";
    assert SecondsAt(s, 16).next == 19;
    assert OffsetAt(s, 19).None?;
  }
}
