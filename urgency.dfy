/**
 * `urgency_color` and `urgency_label` (sync_assignments.py:157-171).  Both
 * look at the time left, `due - now`, through floor divisions: whole hours
 * (`total_seconds() // 3600`) and whole days (`timedelta.days`).
 */
module Urgency {
  import opened Clock
  import opened Decimal

  const ColorRed: string := "#e53e3e"
  const ColorOrange: string := "#dd6b20"
  const ColorYellow: string := "#d69e2e"
  const ColorGreen: string := "#38a169"

  /** The label a task gets; `Text` renders it as the digest shows it. */
  datatype Label =
    | HoursLeft(hours: int)
    | Tomorrow
    | SoonDays(days: int)
    | WeekDays(days: int)
    | LaterDays(days: int)
  {
    function Text(): string {
      match this
      case HoursLeft(h) => "\U{26A0}\U{FE0F} " + IntToString(h) + "h left"
      case Tomorrow => "\U{1F534} Tomorrow"
      case SoonDays(d) => "\U{1F7E0} " + IntToString(d) + " days"
      case WeekDays(d) => "\U{1F7E1} " + IntToString(d) + " days"
      case LaterDays(d) => "\U{1F7E2} " + IntToString(d) + " days"
    }
  }

  /** `(due - now).days`. */
  function DaysLeft(due: Instant, now: Instant): int {
    FloorDiv(due - now, SecondsPerDay)
  }

  /** `int((due - now).total_seconds() // 3600)`. */
  function HoursLeftOf(due: Instant, now: Instant): int {
    FloorDiv(due - now, SecondsPerHour)
  }

  /** The colour tiers, stated on the seconds left. */
  function UrgencyColor(due: Instant, now: Instant): (c: string)
    ensures c == ColorRed <==> due - now < SecondsPerDay
    ensures c == ColorOrange <==> SecondsPerDay <= due - now < 4 * SecondsPerDay
    ensures c == ColorYellow <==> 4 * SecondsPerDay <= due - now < 8 * SecondsPerDay
    ensures c == ColorGreen <==> 8 * SecondsPerDay <= due - now
  {
    var days := DaysLeft(due, now);
    if days < 1 then ColorRed
    else if days <= 3 then ColorOrange
    else if days <= 7 then ColorYellow
    else ColorGreen
  }

  /**
   * The label tiers, stated on the seconds left: under a day shows whole
   * hours; then Tomorrow, 2-3 days, 4-7 days and 8 days or more, each
   * showing the whole number of days.
   */
  function UrgencyLabel(due: Instant, now: Instant): (l: Label)
    ensures l.HoursLeft? <==> due - now < SecondsPerDay
    ensures l.HoursLeft? ==>
      SecondsPerHour * l.hours <= due - now < SecondsPerHour * l.hours + SecondsPerHour
    ensures l == Tomorrow <==> SecondsPerDay <= due - now < 2 * SecondsPerDay
    ensures l.SoonDays? <==> 2 * SecondsPerDay <= due - now < 4 * SecondsPerDay
    ensures l.WeekDays? <==> 4 * SecondsPerDay <= due - now < 8 * SecondsPerDay
    ensures l.LaterDays? <==> 8 * SecondsPerDay <= due - now
    ensures l.SoonDays? || l.WeekDays? || l.LaterDays? ==>
      SecondsPerDay * l.days <= due - now < SecondsPerDay * l.days + SecondsPerDay
  {
    var hours := HoursLeftOf(due, now);
    var days := DaysLeft(due, now);
    if hours < 24 then HoursLeft(hours)
    else if days == 1 then Tomorrow
    else if days <= 3 then SoonDays(days)
    else if days <= 7 then WeekDays(days)
    else LaterDays(days)
  }

  /**
   * Colour and label agree on every tier but one: a task due tomorrow is
   * labelled with the red "Tomorrow" but coloured orange.
   */
  lemma ColorMatchesLabel(due: Instant, now: Instant)
    ensures var l, c := UrgencyLabel(due, now), UrgencyColor(due, now);
      && (c == ColorRed <==> l.HoursLeft?)
      && (c == ColorOrange <==> l == Tomorrow || l.SoonDays?)
      && (c == ColorYellow <==> l.WeekDays?)
      && (c == ColorGreen <==> l.LaterDays?)
  {
  }

  /**
   * The boundaries: 23h59m is still hours; 24h is Tomorrow; 7 days and
   * also 7 days 1 hour are the yellow "7 days"; green starts at 8 days.
   */
  lemma UrgencyBoundaries(now: Instant)
    ensures UrgencyLabel(now + 23 * SecondsPerHour + 59 * 60, now) == HoursLeft(23)
    ensures UrgencyLabel(now + SecondsPerDay, now) == Tomorrow
    ensures UrgencyColor(now + SecondsPerDay, now) == ColorOrange
    ensures UrgencyLabel(now + 7 * SecondsPerDay, now) == WeekDays(7)
    ensures UrgencyLabel(now + 7 * SecondsPerDay + SecondsPerHour, now) == WeekDays(7)
    ensures UrgencyColor(now + 7 * SecondsPerDay + SecondsPerHour, now) == ColorYellow
    ensures UrgencyLabel(now + 8 * SecondsPerDay, now) == LaterDays(8)
    ensures UrgencyLabel(now - 1, now) == HoursLeft(-1)
  {
  }

  /** How those boundary cases read in the digest. */
  lemma BoundaryTexts(now: Instant)
    ensures UrgencyLabel(now + 23 * SecondsPerHour + 59 * 60, now).Text() == "\U{26A0}\U{FE0F} 23h left"
    ensures UrgencyLabel(now + SecondsPerDay, now).Text() == "\U{1F534} Tomorrow"
    ensures UrgencyLabel(now + 7 * SecondsPerDay + SecondsPerHour, now).Text() == "\U{1F7E1} 7 days"
    ensures UrgencyLabel(now + 8 * SecondsPerDay, now).Text() == "\U{1F7E2} 8 days"
    ensures UrgencyLabel(now - 1, now).Text() == "\U{26A0}\U{FE0F} -1h left"
  {
    UrgencyBoundaries(now);
    assert IntToString(23) == "23" && IntToString(7) == "7" && IntToString(8) == "8";
    assert IntToString(-1) == "-1";
  }
}
