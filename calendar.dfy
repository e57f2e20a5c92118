/** Working-day and sprint calendar arithmetic over day numbers.
    Day 0 is 1 January 1970, a Thursday; weekdays are numbered as `Date.getDay()`
    numbers them (Sunday = 0, Monday = 1, ..., Saturday = 6). */
module Calendar {

  /** Working days in a sprint. */
  const SprintDurationDays: nat := 10

  function Weekday(d: int): (w: int)
    ensures 0 <= w < 7
  {
    (d + 4) % 7
  }

  /** `isWeekend` of date-fns: Saturday or Sunday. */
  predicate IsWeekend(d: int)
  {
    Weekday(d) == 0 || Weekday(d) == 6
  }

  /** Three days in a row are never all weekend days. */
  lemma NoThreeWeekendDays(d: int)
    ensures !(IsWeekend(d) && IsWeekend(d + 1) && IsWeekend(d + 2))
  {
  }

  /** The first working day strictly after `d`. */
  ghost function NextWorkingDay(d: int): (r: int)
    ensures d < r <= d + 3
    ensures !IsWeekend(r)
    ensures forall k :: d < k < r ==> IsWeekend(k)
  {
    NoThreeWeekendDays(d + 1);
    if !IsWeekend(d + 1) then d + 1
    else if !IsWeekend(d + 2) then d + 2
    else d + 3
  }

  /** NextWorkingDay is the only day with its three properties. */
  lemma NextWorkingDayUnique(d: int, r: int)
    requires d < r && !IsWeekend(r)
    requires forall k :: d < k < r ==> IsWeekend(k)
    ensures r == NextWorkingDay(d)
  {
  }

  lemma NextWorkingDayMonotone(a: int, b: int)
    requires a <= b
    ensures NextWorkingDay(a) <= NextWorkingDay(b)
  {
  }

  /** getNextWorkingDay: step one day, then keep stepping while on a weekend. */
  method GetNextWorkingDay(date: int) returns (nextDay: int)
    ensures nextDay == NextWorkingDay(date)
  {
    nextDay := date + 1;
    while IsWeekend(nextDay)
      invariant date < nextDay <= date + 3
      invariant forall k :: date < k < nextDay ==> IsWeekend(k)
      decreases date + 3 - nextDay
    {
      NoThreeWeekendDays(date + 1);
      nextDay := nextDay + 1;
    }
    NextWorkingDayUnique(date, nextDay);
  }

  /** The day itself when it is a working day, otherwise the next working day. */
  ghost function FirstWorkingDayFrom(d: int): (r: int)
    ensures d <= r <= d + 2
    ensures !IsWeekend(r)
    ensures forall k :: d <= k < r ==> IsWeekend(k)
  {
    if IsWeekend(d) then NextWorkingDay(d) else d
  }

  /** getSprintStartDate: the Monday of the Monday-to-Sunday week holding `d`. */
  function SprintStart(d: int): (s: int)
    ensures Weekday(s) == 1
    ensures d - 6 <= s <= d
  {
    var dayOfWeek := Weekday(d);
    var daysToMonday := if dayOfWeek == 0 then 6 else dayOfWeek - 1;
    d - daysToMonday
  }

  /** A Monday is its own sprint start, and a Sunday maps back six days. */
  lemma SprintStartFixesMondays(d: int)
    ensures Weekday(d) == 1 ==> SprintStart(d) == d
    ensures Weekday(d) == 0 ==> SprintStart(d) == d - 6
  {
  }

  lemma SprintStartMonotone(a: int, b: int)
    requires a <= b
    ensures SprintStart(a) <= SprintStart(b)
  {
  }

  /** `n` successive steps of NextWorkingDay from `d`. */
  ghost function AdvanceWorkingDays(d: int, n: nat): int
  {
    if n == 0 then d else NextWorkingDay(AdvanceWorkingDays(d, n - 1))
  }

  /** The number of working days in the half-open range (a, b]. */
  ghost function WorkingDaysBetween(a: int, b: int): nat
    decreases b - a
  {
    if b <= a then 0
    else WorkingDaysBetween(a, b - 1) + (if IsWeekend(b) then 0 else 1)
  }

  /** Stepping to the next working day adds exactly one working day to the count. */
  lemma WorkingDaysBetweenStep(a: int, x: int)
    requires a <= x
    ensures WorkingDaysBetween(a, NextWorkingDay(x)) == WorkingDaysBetween(a, x) + 1
  {
    var r := NextWorkingDay(x);
    assert WorkingDaysBetween(a, x + 1) == WorkingDaysBetween(a, x) + (if IsWeekend(x + 1) then 0 else 1);
    if r >= x + 2 {
      assert WorkingDaysBetween(a, x + 2) == WorkingDaysBetween(a, x + 1) + (if IsWeekend(x + 2) then 0 else 1);
    }
    if r == x + 3 {
      assert WorkingDaysBetween(a, x + 3) == WorkingDaysBetween(a, x + 2) + 1;
    }
  }

  lemma {:induction false} AdvanceWorkingDaysCounts(d: int, n: nat)
    ensures AdvanceWorkingDays(d, n) >= d + n
    ensures WorkingDaysBetween(d, AdvanceWorkingDays(d, n)) == n
    ensures n > 0 ==> !IsWeekend(AdvanceWorkingDays(d, n))
  {
    if n > 0 {
      AdvanceWorkingDaysCounts(d, n - 1);
      WorkingDaysBetweenStep(d, AdvanceWorkingDays(d, n - 1));
    }
  }

  /** getSprintEndDate: the SprintDurationDays-th working day after the start,
      the start itself not counted. */
  ghost function SprintEnd(sprintStart: int): (e: int)
    ensures e >= sprintStart + SprintDurationDays
    ensures !IsWeekend(e)
    ensures WorkingDaysBetween(sprintStart, e) == SprintDurationDays
  {
    AdvanceWorkingDaysCounts(sprintStart, SprintDurationDays);
    AdvanceWorkingDays(sprintStart, SprintDurationDays)
  }

  method GetSprintEndDate(sprintStartDate: int) returns (endDate: int)
    ensures endDate == SprintEnd(sprintStartDate)
  {
    endDate := sprintStartDate;
    var workingDays := 0;
    while workingDays < SprintDurationDays
      invariant 0 <= workingDays <= SprintDurationDays
      invariant endDate == AdvanceWorkingDays(sprintStartDate, workingDays)
    {
      endDate := GetNextWorkingDay(endDate);
      workingDays := workingDays + 1;
    }
  }

  lemma WeekdayShift(d: int, k: nat)
    ensures Weekday(d + k) == (Weekday(d) + k) % 7
  {
  }

  /** NextWorkingDay by the weekday of its argument: Friday skips the weekend. */
  lemma NextWorkingDayByWeekday(d: int)
    ensures Weekday(d) <= 4 ==> NextWorkingDay(d) == d + 1
    ensures Weekday(d) == 5 ==> NextWorkingDay(d) == d + 3
    ensures Weekday(d) == 6 ==> NextWorkingDay(d) == d + 2
  {
    WeekdayShift(d, 1);
    WeekdayShift(d, 2);
  }

  /** One more NextWorkingDay step of AdvanceWorkingDays from a known weekday. */
  lemma AdvanceStep(s: int, n: nat, x: int, k: nat)
    requires AdvanceWorkingDays(s, n) == x && Weekday(s) == 1
    requires x == s + k
    ensures Weekday(x) == (1 + k) % 7
    ensures AdvanceWorkingDays(s, n + 1) == NextWorkingDay(x)
  {
    WeekdayShift(s, k);
  }

  /** The sprint of a Monday ends on the Monday two weeks later, so the next sprint
      the search tries starts on the Tuesday after that: sprint starts drift. */
  lemma MondaySprint(s: int)
    requires Weekday(s) == 1
    ensures SprintEnd(s) == s + 14
    ensures NextWorkingDay(SprintEnd(s)) == s + 15
    ensures Weekday(s + 15) == 2
  {
    var days := [0, 1, 2, 3, 4, 7, 8, 9, 10, 11, 14];
    var n := 0;
    while n < 10
      invariant 0 <= n <= 10
      invariant AdvanceWorkingDays(s, n) == s + days[n]
    {
      AdvanceStep(s, n, s + days[n], days[n]);
      NextWorkingDayByWeekday(s + days[n]);
      n := n + 1;
    }
    AdvanceStep(s, 10, s + 14, 14);
    NextWorkingDayByWeekday(s + 14);
    WeekdayShift(s, 15);
  }
}
