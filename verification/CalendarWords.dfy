/** `civil_from_days` of `src/timestamp.rs` on the integers it is written for. */
module CalendarWords {
  import opened Bytes
  import opened Calendar
  import Decimal

  /** The source, wrap for wrap: `days` and the era are 64-bit, the day of the era is cast to 32 bits. */
  function CivilInWords(days: int): Date {
    var z := WrapI64(days + 719468);
    var era := DivTrunc(if z >= 0 then z else WrapI64(z - 146096), 146097);
    DateInEra(era, Wrap32(WrapI64(z - WrapI64(era * 146097))))
  }

  /** The last day number to which 719468 can be added. */
  const LAST_DAY: int := TWO_63 - 1 - 719468

  lemma InWords(x: int)
    requires -TWO_63 <= x < TWO_63
    ensures WrapI64(x) == x
  {
  }

  lemma EraInWords(z: int, era: int, doe: int)
    requires 719468 - TWO_63 <= z < TWO_63 && z == era * 146097 + doe && 0 <= doe < 146097
    ensures DivTrunc(if z >= 0 then z else WrapI64(z - 146096), 146097) == era
    ensures Wrap32(WrapI64(z - WrapI64(era * 146097))) == doe
  {
    InWords(z - 146096);
    EraRoundsDown(z, era, doe);
    InWords(z - doe);
    InWords(doe);
  }

  lemma CivilInWordsIs(days: int, z: int, era: int, doe: int)
    requires z == WrapI64(days + 719468)
    requires DivTrunc(if z >= 0 then z else WrapI64(z - 146096), 146097) == era
    requires Wrap32(WrapI64(z - WrapI64(era * 146097))) == doe
    ensures CivilInWords(days) == DateInEra(era, doe)
  {
  }

  /** Up to `LAST_DAY` nothing wraps. */
  lemma CivilInWordsAgrees(days: int)
    requires -TWO_63 <= days <= LAST_DAY
    ensures CivilInWords(days) == CivilFromDays(days)
  {
    var z := days + 719468;
    var era, doe := z / 146097, z % 146097;
    InWords(z);
    EraInWords(z, era, doe);
    CivilInWordsIs(days, z, era, doe);
    CivilIs(days, era, doe);
  }

  /** Every 64-bit day number up to `LAST_DAY` gives a real calendar date, the one whose position in the calendar is
      that day. */
  lemma CivilWithin(days: int)
    requires -TWO_63 <= days <= LAST_DAY
    ensures ValidDate(CivilInWords(days)) && DayNumber(CivilInWords(days)) == days
  {
    CivilInWordsAgrees(days);
    CivilCounts(days);
  }

  /** A day counted in the era before its own is one day off. */
  lemma EraBefore(era: int)
    ensures DateInEra(era, 202553) == DateInEra(era + 1, 56457)
  {
    assert YearOfEra(202553) == 554 && YearOfEra(56457) == 154;
    assert YearStart(554) == 202343 && YearStart(154) == 56247;
  }

  lemma EndsInWords(z: int, era: int)
    requires z == -TWO_63 && era == 63131837319415
    ensures DivTrunc(WrapI64(z - 146096), 146097) == era
    ensures Wrap32(WrapI64(z - WrapI64(era * 146097))) == 202553
  {
    Decimal.DivModUnique(TWO_63 - 146096, 146097, era, 56457);
  }

  /** The next day number gives the date after its own. */
  lemma CivilEnds()
    ensures CivilInWords(LAST_DAY + 1) == CivilFromDays(LAST_DAY + 2)
  {
    var era := 63131837319415;
    EndsInWords(-TWO_63, era);
    CivilInWordsIs(LAST_DAY + 1, -TWO_63, era, 202553);
    CivilIs(LAST_DAY + 2, era + 1, 56457);
    EraBefore(era);
  }
}
