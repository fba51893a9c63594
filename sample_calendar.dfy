/**
 * A calendar on which every fact of `Calendar.Valid()` holds, so that the
 * lemmas assuming it are about something.  Instants are written as their
 * decimal second count, dates are UTC days, and the date text is the day
 * ordinal in eight digits in place of the year, month and day.
 */
module SampleCalendar {
  import opened Wrappers
  import opened Clock
  import opened Decimal

  function DayText(d: Date): string {
    if 0 <= d < 100000000 then FixedDigits(d, 8) else "00000000"
  }

  function Utc(): Calendar {
    Calendar(
      s => ParseInt(s),
      t => IntToString(t),
      t => FloorDiv(t, SecondsPerDay),
      d => DayText(d),
      w => w)
  }

  lemma DayTextInjective(d1: Date, d2: Date)
    requires InYmdRange(d1) && InYmdRange(d2) && DayText(d1) == DayText(d2)
    ensures d1 == d2
  {
    assert Pow10(8) == 100000000;
    FixedDigitsValue(d1, 8);
    FixedDigitsValue(d2, 8);
  }

  lemma UtcIsValid()
    ensures Utc().Valid()
  {
    var cal := Utc();
    forall t ensures cal.fromIso(cal.toIso(t)) == Some(t) {
      IntToStringRoundTrip(t);
    }
    forall d | InYmdRange(d) ensures IsYmd(cal.ymd(d)) {
      assert cal.ymd(d) == DayText(d);
    }
    forall d1, d2 | InYmdRange(d1) && InYmdRange(d2) && cal.ymd(d1) == cal.ymd(d2)
      ensures d1 == d2
    {
      DayTextInjective(d1, d2);
    }
  }
}
