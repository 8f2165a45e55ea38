/** src/utils/business-days.ts. A date is a day number (day 0 is 1 January 1970, a Thursday) and a
    time of day that the arithmetic does not touch; time zones are not part of this model. */
module BusinessDays {
  import opened JsNumbers

  datatype Date = Date(day: int, timeOfDay: nat)

  /** `Date.getDay()`: 0 is Sunday. */
  function Weekday(day: int): (w: nat)
    ensures w < 7
  {
    (day + 4) % 7
  }

  predicate IsBusinessDay(day: int) {
    Weekday(day) != 0 && Weekday(day) != 6
  }

  /** Day 0 was a Thursday, so the weekends are the days 2 and 3, 9 and 10, and so on, before it as well. */
  lemma WeekendsAre(day: int, week: int)
    requires 7 * week <= day < 7 * week + 7
    ensures IsBusinessDay(day) <==> day != 7 * week + 2 && day != 7 * week + 3
  {
  }

  /** The number of business days in (from, until]. */
  function BusinessDaysIn(from: int, until: int): nat
    decreases until - from
  {
    if until <= from then 0 else BusinessDaysIn(from, until - 1) + (if IsBusinessDay(until) then 1 else 0)
  }

  function Ceiling(x: real): int {
    if x == x.Floor as real then x.Floor else x.Floor + 1
  }

  /** The loop that steps day by day. It stops on the first day by which `n` business days have passed. */
  method AddBusinessDays(from: Date, n: Number) returns (result: Date)
    ensures !n.Finite? || n.value <= 0.0 ==> result == from
    ensures n.Finite? && n.value > 0.0 ==>
              && result == Date(LandingDay(from.day, Ceiling(n.value)), from.timeOfDay)
              && IsBusinessDay(result.day) && BusinessDaysIn(from.day, result.day) == Ceiling(n.value)
  {
    result := from;
    if !n.Finite? || n.value <= 0.0 {
      return;
    }
    var added := 0;
    while added as real < n.value
      invariant result.timeOfDay == from.timeOfDay && from.day <= result.day
      invariant added == BusinessDaysIn(from.day, result.day) && added <= Ceiling(n.value)
      invariant added > 0 && added == Ceiling(n.value) ==> IsBusinessDay(result.day)
      decreases Ceiling(n.value) - added, if IsBusinessDay(result.day + 1) then 0 else if IsBusinessDay(result.day + 2) then 1 else 2
    {
      result := result.(day := result.day + 1);
      if IsBusinessDay(result.day) {
        added := added + 1;
      }
    }
    Landing(from.day, added);
    LandingUnique(from.day, added, result.day, LandingDay(from.day, added));
  }

  // --- The closed form ---

  /** The last day on or before `day` that is not in a weekend. */
  function BackToFriday(day: int): int {
    if Weekday(day) == 0 then day - 2 else if Weekday(day) == 6 then day - 1 else day
  }

  /** `n` business days later in constant time. */
  function LandingDay(day: int, n: nat): int {
    var start := BackToFriday(day);
    start + n + 2 * ((Weekday(start) - 1 + n) / 5)
  }

  lemma {:induction false} Landing(day: int, n: nat)
    requires n > 0
    ensures LandingDay(day, n) > day
    ensures IsBusinessDay(LandingDay(day, n)) && BusinessDaysIn(day, LandingDay(day, n)) == n
  {
    if n == 1 {
      FirstLanding(day);
    } else {
      hide LandingDay, IsBusinessDay, BusinessDaysIn, Weekday;
      Landing(day, n - 1);
      NextLanding(day, n - 1);
      NextBusinessDay(day, LandingDay(day, n - 1));
    }
  }

  lemma FirstLanding(day: int)
    ensures LandingDay(day, 1) > day
    ensures IsBusinessDay(LandingDay(day, 1)) && BusinessDaysIn(day, LandingDay(day, 1)) == 1
  {
    var w := Weekday(day);
    assert LandingDay(day, 1) == day + (if w == 5 then 3 else if w == 6 then 2 else 1);
    assert BusinessDaysIn(day, day) == 0;
    assert BusinessDaysIn(day, day + 1) == if w == 5 || w == 6 then 0 else 1;
    assert w == 5 ==> BusinessDaysIn(day, day + 2) == 0;
  }

  function NextDay(day: int): int {
    day + (if Weekday(day) == 5 then 3 else 1)
  }

  lemma NextBusinessDay(from: int, day: int)
    requires from <= day && IsBusinessDay(day)
    ensures IsBusinessDay(NextDay(day)) && BusinessDaysIn(from, NextDay(day)) == BusinessDaysIn(from, day) + 1
  {
    assert BusinessDaysIn(from, day + 1) == BusinessDaysIn(from, day) + (if Weekday(day) == 5 then 0 else 1);
    assert Weekday(day) == 5 ==> BusinessDaysIn(from, day + 2) == BusinessDaysIn(from, day + 1);
  }

  /** The place of the landing day in its week, counted from the Monday of the start. */
  lemma LandingPlace(day: int, n: nat)
    ensures var start := BackToFriday(day);
            var monday, x := start - (Weekday(start) - 1), Weekday(start) - 1 + n;
            && 1 <= Weekday(start) <= 5 && Weekday(monday) == 1
            && LandingDay(day, n) == monday + x % 5 + 7 * (x / 5)
  {
    var start := BackToFriday(day);
    assert 1 <= Weekday(start) <= 5;
    WeekdayAfter(start, 1 - Weekday(start));
  }

  lemma WeekdayAfter(day: int, k: int)
    requires 0 <= Weekday(day) + k < 7
    ensures Weekday(day + k) == Weekday(day) + k
  {
  }

  lemma WeeksLater(monday: int, place: nat, week: nat)
    requires Weekday(monday) == 1 && place < 5
    ensures Weekday(monday + place + 7 * week) == 1 + place
  {
  }

  lemma NextPlace(x: nat)
    ensures (x + 1) / 5 == if x % 5 == 4 then x / 5 + 1 else x / 5
    ensures (x + 1) % 5 == if x % 5 == 4 then 0 else x % 5 + 1
  {
  }

  lemma NextLanding(day: int, n: nat)
    ensures IsBusinessDay(LandingDay(day, n))
    ensures LandingDay(day, n + 1) == NextDay(LandingDay(day, n))
  {
    hide LandingDay, Weekday, BackToFriday;
    var start := BackToFriday(day);
    LandingPlace(day, n);
    LandingPlace(day, n + 1);
    var x := Weekday(start) - 1 + n;
    var week, place := x / 5, x % 5;
    NextPlace(x);
    WeeksLater(start - (Weekday(start) - 1), place, week);
  }

  /** The number of business days never decreases, and rises at each business day. */
  lemma {:induction false} MoreDays(from: int, a: int, b: int)
    requires from <= a < b
    ensures BusinessDaysIn(from, a) <= BusinessDaysIn(from, b)
    ensures IsBusinessDay(b) ==> BusinessDaysIn(from, a) < BusinessDaysIn(from, b)
    decreases b - a
  {
    if a < b - 1 {
      MoreDays(from, a, b - 1);
    }
  }

  /** Only one business day is `n` business days away. */
  lemma LandingUnique(from: int, n: nat, a: int, b: int)
    requires from < a && from < b && IsBusinessDay(a) && IsBusinessDay(b)
    requires BusinessDaysIn(from, a) == n == BusinessDaysIn(from, b)
    ensures a == b
  {
    if a < b {
      MoreDays(from, a, b);
    } else if b < a {
      MoreDays(from, b, a);
    }
  }

  lemma {:induction false} DaysAdd(a: int, b: int, c: int)
    requires a <= b <= c
    ensures BusinessDaysIn(a, c) == BusinessDaysIn(a, b) + BusinessDaysIn(b, c)
    decreases c - b
  {
    if b < c {
      DaysAdd(a, b, c - 1);
    }
  }

  /** Waiting `m` business days and then `n` is waiting `m + n`. */
  lemma {:induction false} Additive(day: int, m: nat, n: nat)
    requires m > 0 && n > 0
    ensures LandingDay(LandingDay(day, m), n) == LandingDay(day, m + n)
  {
    var mid := LandingDay(day, m);
    Landing(day, m);
    Landing(mid, n);
    Landing(day, m + n);
    DaysAdd(day, mid, LandingDay(mid, n));
    LandingUnique(day, m + n, LandingDay(mid, n), LandingDay(day, m + n));
  }

  /** A later start never lands earlier. */
  lemma {:induction false} Monotone(a: int, b: int, n: nat)
    requires a <= b && n > 0
    ensures LandingDay(a, n) <= LandingDay(b, n)
  {
    Landing(a, n);
    Landing(b, n);
    if LandingDay(b, n) < LandingDay(a, n) {
      DaysAdd(a, b, LandingDay(b, n));
      MoreDays(a, LandingDay(b, n), LandingDay(a, n));
    }
  }

  // --- Public holidays ---

  predicate IsOpen(day: int, holidays: iset<int>) {
    IsBusinessDay(day) && day !in holidays
  }

  /** The number of business days in (from, until] that are not holidays. */
  function OpenDaysIn(from: int, until: int, holidays: iset<int>): nat
    decreases until - from
  {
    if until <= from then 0 else OpenDaysIn(from, until - 1, holidays) + (if IsOpen(until, holidays) then 1 else 0)
  }

  /** The date that respects the holidays: an open day with `n` open days up to it. */
  predicate Respects(from: int, n: nat, holidays: iset<int>, day: int) {
    from < day && IsOpen(day, holidays) && OpenDaysIn(from, day, holidays) == n
  }

  ghost predicate HolidayIn(from: int, until: int, holidays: iset<int>) {
    exists d :: from < d <= until && IsBusinessDay(d) && d in holidays
  }

  /** Counting holidays loses exactly when a holiday falls on a business day of the span. */
  lemma {:induction false} OpenDays(from: int, until: int, holidays: iset<int>)
    requires from <= until
    ensures OpenDaysIn(from, until, holidays) <= BusinessDaysIn(from, until)
    ensures OpenDaysIn(from, until, holidays) < BusinessDaysIn(from, until) <==> HolidayIn(from, until, holidays)
    decreases until - from
  {
    if from < until {
      OpenDays(from, until - 1, holidays);
      HolidayNext(from, until, holidays);
    }
  }

  lemma HolidayNext(from: int, until: int, holidays: iset<int>)
    requires from < until
    ensures HolidayIn(from, until, holidays) <==> HolidayIn(from, until - 1, holidays) || (IsBusinessDay(until) && until in holidays)
  {
    if HolidayIn(from, until - 1, holidays) {
      var d :| from < d <= until - 1 && IsBusinessDay(d) && d in holidays;
      assert d <= until;
    }
  }

  /** Whatever the holidays are, the date that respects them is never earlier, and it is later exactly
      when a holiday falls on a business day of the window. The header comment of the file says the
      reverse, that ignoring holidays can only make the window longer. */
  lemma HolidaysLengthen(from: int, n: nat, holidays: iset<int>, respectful: int)
    requires n > 0 && Respects(from, n, holidays, respectful)
    ensures LandingDay(from, n) <= respectful
    ensures LandingDay(from, n) < respectful <==> HolidayIn(from, LandingDay(from, n), holidays)
  {
    var landing := LandingDay(from, n);
    Landing(from, n);
    OpenDays(from, respectful, holidays);
    OpenDays(from, landing, holidays);
    if respectful < landing {
      MoreDays(from, respectful, landing);
    } else if landing < respectful {
      OpenMore(from, landing, respectful, holidays);
      assert OpenDaysIn(from, landing, holidays) < n;
    }
  }

  lemma {:induction false} OpenMore(from: int, a: int, b: int, holidays: iset<int>)
    requires from <= a < b
    ensures OpenDaysIn(from, a, holidays) <= OpenDaysIn(from, b, holidays)
    ensures IsOpen(b, holidays) ==> OpenDaysIn(from, a, holidays) < OpenDaysIn(from, b, holidays)
    decreases b - a
  {
    if a < b - 1 {
      OpenMore(from, a, b - 1, holidays);
    }
  }

  /** There is a date that respects the holidays if and only if `n` days stay open at all, and then
      there is only one. */
  lemma RespectfulDate(from: int, n: nat, holidays: iset<int>)
    requires n > 0
    ensures (exists day :: Respects(from, n, holidays, day)) <==> (exists until :: OpenDaysIn(from, until, holidays) >= n)
    ensures forall a, b | Respects(from, n, holidays, a) && Respects(from, n, holidays, b) :: a == b
  {
    if until :| OpenDaysIn(from, until, holidays) >= n {
      Reached(from, n, holidays, until);
    }
    forall a, b | Respects(from, n, holidays, a) && Respects(from, n, holidays, b) ensures a == b {
      if a < b {
        OpenMore(from, a, b, holidays);
      } else if b < a {
        OpenMore(from, b, a, holidays);
      }
    }
  }

  /** The count of open days takes every value on its way. */
  lemma {:induction false} Reached(from: int, n: nat, holidays: iset<int>, until: int)
    requires 0 < n <= OpenDaysIn(from, until, holidays)
    ensures exists day :: Respects(from, n, holidays, day)
    decreases until - from
  {
    if OpenDaysIn(from, until - 1, holidays) < n {
      assert Respects(from, n, holidays, until);
    } else {
      Reached(from, n, holidays, until - 1);
    }
  }

  ghost function Calendar(holidays: set<int>): iset<int> {
    iset d | d in holidays
  }

  /** Under finitely many holidays enough days stay open, however long the window. */
  lemma {:induction false} FiniteHolidays(from: int, n: nat, holidays: set<int>)
    ensures exists until :: OpenDaysIn(from, until, Calendar(holidays)) >= n
  {
    var closed := Calendar(holidays);
    if n == 0 {
      assert OpenDaysIn(from, from, closed) >= 0;
    } else {
      FiniteHolidays(from, n - 1, holidays);
      var before :| OpenDaysIn(from, before, closed) >= n - 1;
      var last := LastOf(holidays);
      var quiet := if before < last then last else before;
      quiet := if quiet < from then from else quiet;
      if before < quiet {
        OpenBefore(from, before, quiet, closed);
      }
      assert quiet + 3 !in closed && quiet + 2 !in closed && quiet + 1 !in closed;
      OpenWithin(from, quiet, closed);
    }
  }

  lemma OpenBefore(from: int, a: int, b: int, holidays: iset<int>)
    requires a < b
    ensures OpenDaysIn(from, a, holidays) <= OpenDaysIn(from, b, holidays)
  {
    if from <= a {
      OpenMore(from, a, b, holidays);
    }
  }

  /** Among any three days one is a business day. */
  lemma OpenWithin(from: int, day: int, holidays: iset<int>)
    requires from <= day && day + 1 !in holidays && day + 2 !in holidays && day + 3 !in holidays
    ensures OpenDaysIn(from, day + 3, holidays) > OpenDaysIn(from, day, holidays)
  {
    var open := if IsBusinessDay(day + 1) then day + 1 else if IsBusinessDay(day + 2) then day + 2 else day + 3;
    OpenMore(from, day, open, holidays);
    if open < day + 3 {
      OpenMore(from, open, day + 3, holidays);
    }
  }

  lemma {:induction false} LastOf(days: set<int>) returns (last: int)
    ensures forall d | d in days :: d <= last
    decreases days
  {
    last := 0;
    if d :| d in days {
      var rest := LastOf(days - {d});
      last := if rest < d then d else rest;
      forall other | other in days ensures other <= last {
        assert other == d || other in days - {d};
      }
    }
  }

  /** From Sunday 4 January 1970, one business day: the code lands on Monday, and when that Monday is a
      holiday the date that respects it is the Tuesday. */
  lemma MondayOff()
    ensures LandingDay(3, 1) == 4
    ensures Respects(3, 1, iset{4}, 5)
  {
    assert OpenDaysIn(3, 3, iset{4}) == 0;
    assert OpenDaysIn(3, 4, iset{4}) == 0;
  }
}
