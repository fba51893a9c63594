/**
 * Time as the engine sees it.  Instants are whole seconds on one absolute
 * time line; dates are day ordinals in the Python convention (day 1 is
 * Monday 0001-01-01).  The date and time library calls the engine makes
 * (ISO-8601 parsing and formatting, the America/Chicago zone, `strftime`)
 * are not modelled; they are the fields of a `Calendar`, and `Valid()`
 * lists the few facts about them that the proofs rely on.
 */
module Clock {
  import opened Wrappers

  type Instant = int
  type Date = int

  const SecondsPerHour: int := 3600
  const SecondsPerDay: int := 86400
  const SecondsPerWeek: int := 7 * SecondsPerDay

  /** Errors raised by the library calls that the engine does not catch. */
  datatype Error =
    | BadIsoFormat    // `datetime.fromisoformat` raised ValueError on a non-empty string
    | NoDueToCompare  // `None > datetime` raised TypeError (an empty due was compared)

  datatype Calendar = Calendar(
    fromIso: string -> Option<Instant>,  // fromisoformat(s.replace("Z", "+00:00")); None when it raises
    toIso: Instant -> string,            // isoformat() of a Central-time datetime
    localDate: Instant -> Date,          // .date() of the instant in Central time
    ymd: Date -> string,                 // strftime('%Y%m%d')
    localize: int -> Instant)            // CENTRAL_TZ.localize of a wall-clock second count
  {
    ghost predicate Valid() {
      && (forall t :: fromIso(toIso(t)) == Some(t))
      && (forall t :: toIso(t) != "")
      && (forall d :: InYmdRange(d) ==> IsYmd(ymd(d)))
      && (forall d1, d2 :: InYmdRange(d1) && InYmdRange(d2) && ymd(d1) == ymd(d2) ==> d1 == d2)
      && (forall w :: localDate(localize(w)) == w / SecondsPerDay)
      && LocalizeBounded()
    }

    /** Central time is never more than a day ahead of UTC. */
    ghost predicate LocalizeBounded() {
      forall w :: w - SecondsPerDay <= localize(w)
    }
  }

  /** Ordinals of 1000-01-01 and 9999-12-31. */
  const FirstYmdDate: Date := 364878
  const LastYmdDate: Date := 3652059

  /**
   * The dates that `strftime('%Y%m%d')` writes with eight digits: years
   * 1000 to 9999 (an earlier year has fewer digits for `%Y`).
   */
  predicate InYmdRange(d: Date) {
    FirstYmdDate <= d <= LastYmdDate
  }

  /** Eight ASCII digits, the shape of `%Y%m%d`. */
  predicate IsYmd(s: string) {
    |s| == 8 && forall i :: 0 <= i < 8 ==> '0' <= s[i] <= '9'
  }

  /**
   * Python's floor division by a positive divisor (`//`, and `timedelta.days`
   * on a number of seconds).  Dafny's `/` agrees with it when b > 0.
   */
  function FloorDiv(a: int, b: int): (q: int)
    requires b > 0
    ensures b * q <= a < b * q + b
  {
    a / b
  }

  /** `date.weekday()` of a day ordinal: Monday is 0, Sunday is 6. */
  function Weekday(d: Date): (w: int)
    ensures 0 <= w < 7
  {
    (d + 6) % 7
  }

  /** The weekday read off a division of `d + 6` by seven. */
  lemma WeekdayFromDivision(d: Date, q: int, r: int)
    requires d + 6 == 7 * q + r && 0 <= r < 7
    ensures Weekday(d) == r
  {
  }

  /** A localized wall-clock time is at most a day before the same UTC reading. */
  lemma LocalizeLowerBound(cal: Calendar, w: int)
    requires cal.LocalizeBounded()
    ensures w - SecondsPerDay <= cal.localize(w)
  {
  }

  /** Seconds since the epoch of a wall-clock time `hour:minute` on date `d`. */
  function WallClock(d: Date, hour: int, minute: int): int {
    d * 86400 + hour * 3600 + minute * 60
  }

  /**
   * `parse_iso` (sync_assignments.py:37-40): an empty string gives no
   * instant, a non-empty string is handed to `fromisoformat`, which raises
   * on malformed input; that exception is not caught.
   */
  function ParseIso(cal: Calendar, s: string): (r: Result<Option<Instant>, Error>)
    ensures r == Success(None) <==> s == ""
    ensures r.Failure? <==> s != "" && cal.fromIso(s).None?
    ensures r.Failure? ==> r.error == BadIsoFormat
    ensures forall t :: r == Success(Some(t)) <==> s != "" && cal.fromIso(s) == Some(t)
  {
    if s == "" then Success(None)
    else match cal.fromIso(s)
      case Some(t) => Success(Some(t))
      case None => Failure(BadIsoFormat)
  }

  /** Whatever `isoformat` writes, `parse_iso` reads back as the same instant. */
  lemma ParseIsoRoundTrip(cal: Calendar, t: Instant)
    requires cal.Valid()
    ensures ParseIso(cal, cal.toIso(t)) == Success(Some(t))
  {
  }
}
