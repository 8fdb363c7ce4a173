/** The proleptic Gregorian calendar of the runtime: day numbers and ISO weeks. */
module Calendar {
  import opened Arith

  // ----- the runtime's formulas -----

  /** The number of days from 1 January 1970, with C's truncating division. */
  function DaysFromCivil(y: int, m: int, d: int): int {
    var y1 := if m <= 2 then y - 1 else y;
    var era := TruncDiv(if y1 >= 0 then y1 else y1 - 399, 400);
    var yoe := y1 - era * 400;
    var doy := TruncDiv(153 * (m + (if m > 2 then -3 else 9)) + 2, 5) + d - 1;
    var doe := yoe * 365 + TruncDiv(yoe, 4) - TruncDiv(yoe, 100) + doy;
    era * 146097 + doe - 719468
  }

  predicate IsLeapYear(y: int) {
    if TruncMod(y, 400) == 0 then true
    else if TruncMod(y, 100) == 0 then false
    else TruncMod(y, 4) == 0
  }

  function DaysInMonth(y: int, m: int): int {
    if m == 2 then (if IsLeapYear(y) then 29 else 28)
    else if m == 4 || m == 6 || m == 9 || m == 11 then 30
    else 31
  }

  /** Monday is 1, Sunday is 7. */
  function DayOfWeek(y: int, m: int, d: int): int {
    var w := TruncMod(DaysFromCivil(y, m, d) + 4, 7);
    var w1 := if w < 0 then w + 7 else w;
    if w1 == 0 then 7 else w1
  }

  function DaysBeforeMonth(y: int, m: int): int
    decreases if m > 1 then m else 1
  {
    if m <= 1 then 0 else DaysBeforeMonth(y, m - 1) + DaysInMonth(y, m - 1)
  }

  function DayOfYear(y: int, m: int, d: int): int {
    DaysBeforeMonth(y, m) + d
  }

  method ComputeDayOfYear(y: int, m: int, d: int) returns (total: int)
    ensures total == DayOfYear(y, m, d)
  {
    total := 0;
    var i := 1;
    while i < m
      invariant 1 <= i && (i <= m || i == 1)
      invariant total == DaysBeforeMonth(y, i)
    {
      total := total + DaysInMonth(y, i);
      i := i + 1;
    }
    total := total + d;
  }

  function WeeksInIsoYear(y: int): int {
    var jan1 := DayOfWeek(y, 1, 1);
    if jan1 == 4 then 53
    else if jan1 == 3 && IsLeapYear(y) then 53
    else 52
  }

  datatype IsoWeek = IsoWeek(week: int, year: int)

  function IsoWeekInfo(y: int, m: int, d: int): IsoWeek {
    var w := TruncDiv(DayOfYear(y, m, d) - DayOfWeek(y, m, d) + 10, 7);
    if w < 1 then IsoWeek(WeeksInIsoYear(y - 1), y - 1)
    else if w > WeeksInIsoYear(y) then IsoWeek(1, y + 1)
    else IsoWeek(w, y)
  }

  // ----- dates -----

  datatype Date = Date(y: int, m: int, d: int)

  predicate Valid(t: Date) {
    1 <= t.m <= 12 && 1 <= t.d <= DaysInMonth(t.y, t.m)
  }

  function Days(t: Date): int {
    DaysFromCivil(t.y, t.m, t.d)
  }

  function NextDay(t: Date): Date {
    if t.d < DaysInMonth(t.y, t.m) then Date(t.y, t.m, t.d + 1)
    else if t.m < 12 then Date(t.y, t.m + 1, 1)
    else Date(t.y + 1, 1, 1)
  }

  function DayBefore(t: Date): Date {
    if t.d > 1 then Date(t.y, t.m, t.d - 1)
    else if t.m > 1 then Date(t.y, t.m - 1, DaysInMonth(t.y, t.m - 1))
    else Date(t.y - 1, 12, 31)
  }

  // ----- an independent count: 365 days a year and the leap days before it -----

  function LeapDays(y: int): int {
    y / 4 - y / 100 + y / 400
  }

  function YearStart(y: int): int {
    365 * (y - 1) + LeapDays(y - 1) - 719162
  }

  predicate Leap(y: int) {
    y % 4 == 0 && (y % 100 != 0 || y % 400 == 0)
  }

  lemma LeapIs(y: int)
    ensures IsLeapYear(y) <==> Leap(y)
  {
    TruncDivExact(y, 400);
    TruncDivExact(y, 100);
    TruncDivExact(y, 4);
  }

  lemma FloorStep(y: int, k: int)
    requires k > 1
    ensures y / k == (y - 1) / k + if y % k == 0 then 1 else 0
  {
    DivIs(y, k);
    if y % k == 0 {
      assert y - 1 == (y / k - 1) * k + (k - 1) by { assert (y / k - 1) * k == (y / k) * k - k; }
      DivUnique(y - 1, k, y / k - 1, k - 1);
    } else {
      DivUnique(y - 1, k, y / k, y % k - 1);
    }
  }

  lemma YearLength(y: int)
    ensures YearStart(y + 1) == YearStart(y) + if Leap(y) then 366 else 365
  {
    FloorStep(y, 4);
    FloorStep(y, 100);
    FloorStep(y, 400);
    Multiples(y);
  }

  lemma Multiples(y: int)
    ensures y % 400 == 0 ==> y % 100 == 0
    ensures y % 100 == 0 ==> y % 4 == 0
  {
    DivIs(y, 400);
    DivIs(y, 100);
    if y % 400 == 0 { DivUnique(y, 100, 4 * (y / 400), 0); }
    if y % 100 == 0 { DivUnique(y, 4, 25 * (y / 100), 0); }
  }

  lemma FloorEra(y: int)
    ensures TruncDiv(if y >= 0 then y else y - 399, 400) == y / 400
  {
    if y < 0 { DivUnique(y, 400, -((399 - y) / 400), y + 400 * ((399 - y) / 400)); }
  }

  lemma SplitEra(y: int)
    ensures var e, r := y / 400, y - y / 400 * 400; 0 <= r < 400 && LeapDays(y) == 97 * e + r / 4 - r / 100
  {
    var e, r := y / 400, y - y / 400 * 400;
    DivIs(y, 400);
    DivIs(r, 4);
    DivIs(r, 100);
    DivUnique(y, 4, 100 * e + r / 4, r % 4);
    DivUnique(y, 100, 4 * e + r / 100, r % 100);
  }

  /** The runtime's count is: days before the year, plus days before the month, plus the day. */
  lemma DaysAre(y: int, m: int, d: int)
    requires 1 <= m <= 12
    ensures DaysFromCivil(y, m, d) == YearStart(y) + DaysBeforeMonth(y, m) + d - 1
  {
    var y1 := if m <= 2 then y - 1 else y;
    MarchDays(y, m, d);
    MonthTable(y, m);
    YearLength(y);
    hide DaysFromCivil;
    hide IsLeapYear;
    hide DaysBeforeMonth;
    hide YearStart;
    if m <= 2 { assert (153 * (m + 9) + 2) / 5 == 306 + 31 * (m - 1); }
  }

  /** The formula counts from March, in eras of 400 years. */
  lemma MarchDays(y: int, m: int, d: int)
    requires 1 <= m <= 12
    ensures var y1 := if m <= 2 then y - 1 else y;
            DaysFromCivil(y, m, d) == YearStart(y1 + 1) + (153 * (m + (if m > 2 then -3 else 9)) + 2) / 5 + d - 1 - 306
  {
    var y1 := if m <= 2 then y - 1 else y;
    FloorEra(y1);
    SplitEra(y1);
    hide LeapDays;
  }

  lemma MonthTable(y: int, m: int)
    requires 1 <= m <= 12
    ensures DaysBeforeMonth(y, m) ==
            if m <= 2 then 31 * (m - 1)
            else (153 * (m - 3) + 2) / 5 + (if Leap(y) then 60 else 59)
  {
    LeapIs(y);
    hide IsLeapYear;
    assert DaysBeforeMonth(y, 3) == if Leap(y) then 60 else 59;
    assert DaysBeforeMonth(y, 6) == DaysBeforeMonth(y, 3) + 92;
    assert DaysBeforeMonth(y, 9) == DaysBeforeMonth(y, 6) + 92;
    assert DaysBeforeMonth(y, 12) == DaysBeforeMonth(y, 9) + 91;
  }

  // ----- the day numbers count days -----

  lemma EpochIsZero()
    ensures Days(Date(1970, 1, 1)) == 0
  {
    DaysAre(1970, 1, 1);
  }

  lemma NextDayIsNext(t: Date)
    requires Valid(t)
    ensures Valid(NextDay(t)) && Days(NextDay(t)) == Days(t) + 1
  {
    hide DaysFromCivil;
    hide YearStart;
    hide IsLeapYear;
    hide Leap;
    DaysAre(t.y, t.m, t.d);
    DaysAre(NextDay(t).y, NextDay(t).m, NextDay(t).d);
    if t.m == 12 {
      MonthTable(t.y, 12);
      YearLength(t.y);
    }
  }

  lemma DayBeforeIsBefore(t: Date)
    requires Valid(t)
    ensures Valid(DayBefore(t)) && NextDay(DayBefore(t)) == t && Days(DayBefore(t)) == Days(t) - 1
  {
    NextDayIsNext(DayBefore(t));
  }

  predicate Earlier(a: Date, b: Date) {
    a.y < b.y || (a.y == b.y && (a.m < b.m || (a.m == b.m && a.d < b.d)))
  }

  lemma {:induction false} MonthsGrow(y: int, m: int, n: int)
    requires 1 <= m < n <= 13
    ensures DaysBeforeMonth(y, m) + DaysInMonth(y, m) <= DaysBeforeMonth(y, n)
    decreases n
  {
    if m < n - 1 { MonthsGrow(y, m, n - 1); }
  }

  lemma YearHolds(t: Date)
    requires Valid(t)
    ensures YearStart(t.y) <= Days(t) < YearStart(t.y + 1)
    ensures DayOfYear(t.y, t.m, t.d) == Days(t) - YearStart(t.y) + 1
  {
    DaysAre(t.y, t.m, t.d);
    MonthsGrow(t.y, t.m, 13);
    MonthTable(t.y, 12);
    YearLength(t.y);
    if t.m > 1 { MonthsGrow(t.y, 1, t.m); }
  }

  lemma {:induction false} YearsGrow(a: int, b: int)
    requires a <= b
    ensures YearStart(a) <= YearStart(b)
    decreases b - a
  {
    if a < b {
      YearsGrow(a, b - 1);
      YearLength(b - 1);
    }
  }

  /** The number grows with the date. */
  lemma DaysMonotonic(a: Date, b: Date)
    requires Valid(a) && Valid(b) && Earlier(a, b)
    ensures Days(a) < Days(b)
  {
    if a.y < b.y {
      YearHolds(a);
      YearHolds(b);
      YearsGrow(a.y + 1, b.y);
    } else {
      DaysAre(a.y, a.m, a.d);
      DaysAre(b.y, b.m, b.d);
      if a.m < b.m { MonthsGrow(a.y, a.m, b.m); }
    }
  }

  /** What `gmtime_r` is taken to return: the date with day number `n`, reached day by day. */
  function CivilFromDays(n: int): (t: Date)
    ensures Valid(t) && Days(t) == n
    decreases if n >= 0 then n else -n
  {
    if n == 0 then EpochIsZero(); Date(1970, 1, 1)
    else if n > 0 then
      var t := CivilFromDays(n - 1);
      NextDayIsNext(t);
      NextDay(t)
    else
      var t := CivilFromDays(n + 1);
      DayBeforeIsBefore(t);
      DayBefore(t)
  }

  /** Valid dates and whole numbers correspond one to one. */
  lemma DaysBijective(t: Date, n: int)
    requires Valid(t)
    ensures Days(t) == n <==> t == CivilFromDays(n)
  {
    var s := CivilFromDays(n);
    if t != s && Days(t) == n {
      if Earlier(t, s) { DaysMonotonic(t, s); } else { DaysMonotonic(s, t); }
    }
  }

  // ----- ISO weeks: a week belongs to the year of its Thursday -----

  /** Day 0 was a Thursday. */
  predicate IsThursday(n: int) {
    n % 7 == 0
  }

  function Thursdays(a: int, b: int): nat
    decreases if b >= a then b - a + 1 else 0
  {
    if b < a then 0 else Thursdays(a, b - 1) + if IsThursday(b) then 1 else 0
  }

  lemma {:induction false} ThursdaysAre(a: int, b: int)
    requires a <= b + 1
    ensures Thursdays(a, b) == b / 7 - (a - 1) / 7
    decreases b - a + 1
  {
    if a <= b {
      ThursdaysAre(a, b - 1);
      FloorStep(b, 7);
    }
  }

  lemma WeekdayIs(y: int, m: int, d: int)
    ensures 1 <= DayOfWeek(y, m, d) <= 7 && IsThursday(DaysFromCivil(y, m, d) - DayOfWeek(y, m, d) + 4)
  {
    hide DaysFromCivil;
  }

  /** The Thursday of the week that holds the date; weeks start on Monday. */
  function ThursdayOf(t: Date): int {
    Days(t) - DayOfWeek(t.y, t.m, t.d) + 4
  }

  lemma DivStep(x: int, k: int)
    ensures (x + 7 * k) / 7 == x / 7 + k && (x + 7 * k) % 7 == x % 7
  {
    DivIs(x, 7);
    DivUnique(x + 7 * k, 7, x / 7 + k, x % 7);
  }

  /** Thursdays in a year of 365 or 366 days that starts on day `j`. */
  lemma ThursdaysInYear(j: int, leap: bool)
    ensures Thursdays(j, j + (if leap then 365 else 364)) == if j % 7 == 0 || (leap && j % 7 == 6) then 53 else 52
  {
    ThursdaysAre(j, j + if leap then 365 else 364);
    hide Thursdays;
    DivIs(j, 7);
    var q, r := j / 7, j % 7;
    DivStep(r, q);
    DivStep(r - 1, q);
    DivStep(r, q + 52);
    DivStep(r + 1, q + 52);
  }

  lemma WeekdayOf(y: int, m: int, d: int)
    ensures var n := DaysFromCivil(y, m, d); DayOfWeek(y, m, d) == (n + 3) % 7 + 1
  {
    hide DaysFromCivil;
  }

  /** The number of ISO weeks is the number of Thursdays in the year. */
  lemma WeeksAreThursdays(y: int)
    ensures WeeksInIsoYear(y) == Thursdays(YearStart(y), YearStart(y + 1) - 1)
  {
    hide DayOfWeek;
    hide DaysFromCivil;
    hide IsLeapYear;
    hide Leap;
    hide YearStart;
    hide Thursdays;
    DaysAre(y, 1, 1);
    YearLength(y);
    LeapIs(y);
    WeekdayOf(y, 1, 1);
    ThursdaysInYear(YearStart(y), Leap(y));
  }

  /** The quotient in `IsoWeekInfo` counts the Thursdays from day `j` to Thursday `7 * k`. */
  lemma WeekNumber(k: int, j: int)
    ensures (7 * k - j + 7) / 7 == k - (j - 1) / 7
  {
    DivIs(j - 1, 7);
    DivUnique(7 * k - j + 7, 7, k - (j - 1) / 7, 6 - (j - 1) % 7);
  }

  lemma ThursdayNear(t: Date)
    requires Valid(t)
    ensures var th := ThursdayOf(t); IsThursday(th) && Days(t) - 3 <= th <= Days(t) + 3
    ensures DayOfYear(t.y, t.m, t.d) - DayOfWeek(t.y, t.m, t.d) + 10 == ThursdayOf(t) - YearStart(t.y) + 7
  {
    hide DayOfWeek;
    hide DaysFromCivil;
    hide YearStart;
    hide DayOfYear;
    WeekdayIs(t.y, t.m, t.d);
    YearHolds(t);
  }

  /** No Thursday lies strictly between two that are a week apart. */
  lemma LastThursday(j: int, b: int, th: int)
    requires IsThursday(th) && th <= b < th + 7 && j <= th
    ensures Thursdays(j, b) == Thursdays(j, th)
  {
    ThursdaysAre(j, b);
    ThursdaysAre(j, th);
    hide Thursdays;
    DivStep(b - th, th / 7);
  }

  lemma FirstThursday(j: int, th: int)
    requires IsThursday(th) && j <= th < j + 7
    ensures Thursdays(j, th) == 1
  {
    ThursdaysAre(j, th);
    hide Thursdays;
    DivStep(j - 1 - th, th / 7);
  }

  lemma WeekQuotient(th: int, j: int)
    requires IsThursday(th) && j - 7 <= th
    ensures var w := TruncDiv(th - j + 7, 7); if th < j then w < 1 else w == Thursdays(j, th)
  {
    hide Thursdays;
    WeekNumber(th / 7, j);
    DivIs(th - j + 7, 7);
    if th >= j { ThursdaysAre(j, th); }
  }

  lemma {:induction false} ThursdaysGrow(j: int, a: int, b: int)
    requires j <= a + 1 && a <= b
    ensures Thursdays(j, a) <= Thursdays(j, b)
    ensures a < b && IsThursday(b) ==> Thursdays(j, a) < Thursdays(j, b)
    decreases b - a
  {
    hide IsThursday;
    if a < b { ThursdaysGrow(j, a, b - 1); }
  }

  /** The week's year is the year of its Thursday, and its number is that Thursday's place among the
      year's Thursdays. */
  lemma IsoWeekCorrect(t: Date)
    requires Valid(t)
    ensures var w := IsoWeekInfo(t.y, t.m, t.d);
            var th := ThursdayOf(t);
            IsThursday(th) && YearStart(w.year) <= th < YearStart(w.year + 1) &&
            w.week == Thursdays(YearStart(w.year), th)
  {
    hide YearStart;
    hide Leap;
    hide DayOfWeek;
    hide Days;
    hide DayOfYear;
    hide WeeksInIsoYear;
    hide Thursdays;
    hide ThursdayOf;
    hide IsThursday;
    hide TruncDiv;
    ThursdayNear(t);
    YearHolds(t);
    WeeksAreThursdays(t.y - 1);
    WeeksAreThursdays(t.y);
    YearLength(t.y - 1);
    YearLength(t.y);
    YearLength(t.y + 1);
    var th, j, next := ThursdayOf(t), YearStart(t.y), YearStart(t.y + 1);
    WeekQuotient(th, j);
    if th < j {
      LastThursday(YearStart(t.y - 1), j - 1, th);
    } else if th >= next {
      FirstThursday(next, th);
      ThursdaysGrow(j, next - 1, th);
    } else {
      ThursdaysGrow(j, j - 1, th);
      ThursdaysGrow(j, th, next - 1);
    }
  }
}
