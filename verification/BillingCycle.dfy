/** The billing window of a traffic group: from the last monthly reset up to the next one,
    narrowed by the assignment's own start, end and manual reset.

    Months are numbered consecutively through all years, days through all months, and
    instants are nanoseconds, so that "earlier" is a comparison of integers.  The calendar
    is Gregorian in both directions, without time zones. */
module BillingCycle {

  import opened Basics

  const NANOS_PER_DAY: nat := 86_400_000_000_000

  // ---------- calendar ----------

  predicate IsLeap(year: int) {
    year % 4 == 0 && (year % 100 != 0 || year % 400 == 0)
  }

  /** Length of month `m`, counted from January of year 0. */
  function DaysIn(m: int): (days: nat)
    ensures 28 <= days <= 31
  {
    [31, if IsLeap(m / 12) then 29 else 28, 31, 30, 31, 30, 31, 31, 30, 31, 30, 31][m % 12]
  }

  /** January, March, May, July, August, October and December have 31 days, February 28 or 29, the
      others 30. */
  lemma DaysOfTheMonths(m: int)
    ensures m % 12 in {0, 2, 4, 6, 7, 9, 11} ==> DaysIn(m) == 31
    ensures m % 12 in {3, 5, 8, 10} ==> DaysIn(m) == 30
    ensures m % 12 == 1 ==> DaysIn(m) == if IsLeap(m / 12) then 29 else 28
  {
  }

  /** A leap day every fourth year, but for the full centuries that 400 does not divide. */
  lemma LeapDays(year: int)
    ensures IsLeap(4 * year) <==> year % 25 != 0 || year % 100 == 0
    ensures !IsLeap(4 * year + 1) && !IsLeap(4 * year + 2) && !IsLeap(4 * year + 3)
  {
    assert 4 * year == 100 * (year / 25) + 4 * (year % 25);
    assert 4 * year == 400 * (year / 100) + 4 * (year % 100);
  }

  /** Day number of the first of the month. */
  function MonthStart(m: int): int
    decreases if m < 0 then -m else m
  {
    if m == 0 then 0
    else if m > 0 then MonthStart(m - 1) + DaysIn(m - 1)
    else MonthStart(m + 1) - DaysIn(m)
  }

  /** The day of month `m` reached by going one day back from the first of the next. */
  function LastDay(m: int): int {
    MonthStart(m + 1) - MonthStart(m)
  }

  lemma LastDayIsMonthLength(m: int)
    ensures LastDay(m) == DaysIn(m)
  {
  }

  lemma {:induction false} MonthsAreOrdered(a: int, b: int)
    requires a < b
    ensures MonthStart(a) + LastDay(a) <= MonthStart(b)
    decreases b - a
  {
    if a + 1 < b {
      MonthsAreOrdered(a + 1, b);
      LastDayIsMonthLength(a + 1);
    }
  }

  // ---------- instants ----------

  /** A point in time by its calendar fields. */
  datatype Stamp = Stamp(month: int, day: int, nanos: int) {
    ghost predicate Valid() {
      1 <= day <= LastDay(month) && 0 <= nanos < NANOS_PER_DAY
    }

    function Instant(): int {
      (MonthStart(month) + day - 1) * NANOS_PER_DAY + nanos
    }
  }

  /** The fields compare like the instants. */
  lemma LaterMonthIsLater(a: Stamp, b: Stamp)
    requires a.Valid() && b.Valid() && a.month < b.month
    ensures a.Instant() < b.Instant()
  {
    MonthsAreOrdered(a.month, b.month);
  }

  predicate After(a: Stamp, b: Stamp) {
    a.Instant() > b.Instant()
  }

  // ---------- the window ----------

  function ClampedDay(day: int): int {
    if day < 1 then 1 else if day > 31 then 31 else day
  }

  /** Midnight of the reset day in a month, or of its last day if the month is shorter. */
  function MonthDay(day: int, m: int): Stamp {
    Stamp(m, if day < LastDay(m) then day else LastDay(m), 0)
  }

  /** The reset falls on the given day, taken into 1 to 31, or on the last day of a shorter month, at
      midnight. */
  ghost predicate FallsOn(s: Stamp, resetDay: int, m: int) {
    var wanted := if resetDay < 1 then 1 else if resetDay > 31 then 31 else resetDay;
    s.month == m && s.nanos == 0 && 1 <= s.day <= DaysIn(m) &&
    (s.day == wanted || (s.day == DaysIn(m) && DaysIn(m) < wanted))
  }

  lemma ResetFallsOn(resetDay: int, m: int)
    ensures FallsOn(MonthDay(ClampedDay(resetDay), m), resetDay, m)
  {
    LastDayIsMonthLength(m);
  }

  lemma MonthDayIsValid(day: int, m: int)
    requires 1 <= day
    ensures MonthDay(day, m).Valid()
  {
    LastDayIsMonthLength(m);
  }

  /** The month whose reset opens the window that contains `now`. */
  function ResetMonth(day: int, now: Stamp): int {
    if After(MonthDay(day, now.month), now) then now.month - 1 else now.month
  }

  /** The window contains the instant and runs between the clamped days of two consecutive
      months. */
  lemma WindowContainsNow(day: int, now: Stamp)
    requires 1 <= day && now.Valid()
    ensures var m := ResetMonth(day, now);
      MonthDay(day, m).Instant() <= now.Instant() < MonthDay(day, m + 1).Instant()
  {
    var m := ResetMonth(day, now);
    MonthDayIsValid(day, m);
    MonthDayIsValid(day, m + 1);
    if m < now.month {
      LaterMonthIsLater(MonthDay(day, m), now);
    } else {
      LaterMonthIsLater(now, MonthDay(day, m + 1));
    }
  }

  lemma {:induction false} ResetsAreOrdered(day: int, a: int, b: int)
    requires 1 <= day && a < b
    ensures MonthDay(day, a).Instant() < MonthDay(day, b).Instant()
  {
    MonthDayIsValid(day, a);
    MonthDayIsValid(day, b);
    LaterMonthIsLater(MonthDay(day, a), MonthDay(day, b));
  }

  /** One month's window ends before a later month's begins. */
  lemma WindowsAreDisjoint(day: int, a: int, b: int)
    requires 1 <= day && a < b
    ensures MonthDay(day, a + 1).Instant() <= MonthDay(day, b).Instant()
  {
    if a + 1 < b {
      ResetsAreOrdered(day, a + 1, b);
    }
  }

  ghost predicate InWindow(day: int, m: int, now: Stamp) {
    MonthDay(day, m).Instant() <= now.Instant() < MonthDay(day, m + 1).Instant()
  }

  lemma OneWindowOnly(day: int, a: int, b: int, now: Stamp)
    requires 1 <= day && InWindow(day, a, now) && InWindow(day, b, now)
    ensures a == b
  {
    if a < b {
      WindowsAreDisjoint(day, a, b);
    } else if b < a {
      WindowsAreDisjoint(day, b, a);
    }
  }

  /** The windows tile the timeline: a month's window holds exactly the instants that
      compute it, so any two instants in one window compute the same one. */
  lemma WindowsTile(day: int, now: Stamp, m: int)
    requires 1 <= day && now.Valid()
    ensures InWindow(day, m, now) <==> ResetMonth(day, now) == m
  {
    WindowContainsNow(day, now);
    assert InWindow(day, ResetMonth(day, now), now);
    if InWindow(day, m, now) {
      OneWindowOnly(day, m, ResetMonth(day, now), now);
    }
  }

  /** The end of a window is the start of the next one. */
  lemma NextResetOpensNextWindow(day: int, m: int)
    requires 1 <= day
    ensures ResetMonth(day, MonthDay(day, m)) == m
  {
    ResetsAreOrdered(day, m, m + 1);
    MonthDayIsValid(day, m);
    assert InWindow(day, m, MonthDay(day, m));
    WindowsTile(day, MonthDay(day, m), m);
  }

  datatype Assignment = Assignment(start: Stamp, end: Option<Stamp>, monthlyReset: bool, resetDay: int,
                                   lastReset: Option<Stamp>)

  /** The monthly window of an assignment, if it has monthly resets. */
  function MonthlyWindow(a: Assignment, now: Stamp): Option<(Stamp, Stamp)> {
    if !a.monthlyReset then None
    else
      var day := ClampedDay(a.resetDay);
      var m := ResetMonth(day, now);
      Some((MonthDay(day, m), MonthDay(day, m + 1)))
  }

  /** `s` is the latest of the given instants that exist. */
  ghost predicate IsLatest(s: Stamp, first: Stamp, second: Option<Stamp>, third: Option<Stamp>) {
    && (s == first || Some(s) == second || Some(s) == third)
    && !After(first, s)
    && (second.Some? ==> !After(second.value, s))
    && (third.Some? ==> !After(third.value, s))
  }

  ghost predicate IsEarliest(s: Option<Stamp>, first: Option<Stamp>, second: Option<Stamp>) {
    && (s == first || s == second)
    && (s == None ==> first == None && second == None)
    && (first.Some? ==> !After(s.value, first.value))
    && (second.Some? ==> !After(s.value, second.value))
  }

  method ResetWindow(resetDay: int, now: Stamp) returns (reset: Stamp, next: Stamp)
    ensures reset == MonthDay(ClampedDay(resetDay), ResetMonth(ClampedDay(resetDay), now))
    ensures next == MonthDay(ClampedDay(resetDay), ResetMonth(ClampedDay(resetDay), now) + 1)
    ensures FallsOn(reset, resetDay, reset.month) && FallsOn(next, resetDay, reset.month + 1)
    ensures now.Valid() ==> reset.Instant() <= now.Instant() < next.Instant()
  {
    ResetFallsOn(resetDay, ResetMonth(ClampedDay(resetDay), now));
    ResetFallsOn(resetDay, ResetMonth(ClampedDay(resetDay), now) + 1);
    if now.Valid() {
      WindowContainsNow(ClampedDay(resetDay), now);
    }
    var day := resetDay;
    if day < 1 {
      day := 1;
    }
    if day > 31 {
      day := 31;
    }
    reset := MonthDay(day, now.month);
    if After(reset, now) {
      reset := MonthDay(day, now.month - 1);
    }
    next := MonthDay(day, reset.month + 1);
  }

  /** The billing window at an instant: from the latest of the assignment's start, the last
      monthly reset and the manual reset, to the earlier of its end and the next reset. */
  method TrafficGroupCycle(assignment: Assignment, now: Stamp) returns (start: Stamp, end: Option<Stamp>)
    ensures var window := MonthlyWindow(assignment, now);
      && IsLatest(start, assignment.start, if window.Some? then Some(window.value.0) else None, assignment.lastReset)
      && IsEarliest(end, assignment.end, if window.Some? then Some(window.value.1) else None)
  {
    start, end := assignment.start, assignment.end;
    if assignment.monthlyReset {
      var reset, next := ResetWindow(assignment.resetDay, now);
      if After(reset, start) {
        start := reset;
      }
      if end == None || After(end.value, next) {
        end := Some(next);
      }
    }
    if assignment.lastReset.Some? && After(assignment.lastReset.value, start) {
      start := assignment.lastReset.value;
    }
  }

  /** With monthly resets, an instant is at or after the reset bound on the start and before
      the bound on the end, whatever the reset day says. */
  lemma MonthlyWindowContainsNow(a: Assignment, now: Stamp)
    requires a.monthlyReset && now.Valid()
    ensures !After(MonthlyWindow(a, now).value.0, now) && After(MonthlyWindow(a, now).value.1, now)
  {
    WindowContainsNow(ClampedDay(a.resetDay), now);
  }
}
