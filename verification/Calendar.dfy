/**
 The civil date of a UNIX day count.

 The Gregorian calendar is specified by its leap rule, its month lengths and "the next day", and
 counted one day at a time from 1970-01-01. The closed form with its nested divisions is shown
 to agree with it.
 */
module Calendar {

  // ----- The calendar, one day at a time

  datatype Date = Date(y: int, m: int, d: int)

  predicate IsLeap(y: int) {
    y % 4 == 0 && (y % 100 != 0 || y % 400 == 0)
  }

  function DaysInMonth(y: int, m: int): int {
    if m == 2 then (if IsLeap(y) then 29 else 28)
    else if m in {4, 6, 9, 11} then 30
    else 31
  }

  predicate ValidDate(t: Date) {
    1 <= t.m <= 12 && 1 <= t.d <= DaysInMonth(t.y, t.m)
  }

  function NextDay(t: Date): Date {
    if t.d < DaysInMonth(t.y, t.m) then Date(t.y, t.m, t.d + 1)
    else if t.m < 12 then Date(t.y, t.m + 1, 1)
    else Date(t.y + 1, 1, 1)
  }

  function PreviousDay(t: Date): Date {
    if t.d > 1 then Date(t.y, t.m, t.d - 1)
    else if t.m > 1 then Date(t.y, t.m - 1, DaysInMonth(t.y, t.m - 1))
    else Date(t.y - 1, 12, 31)
  }

  const EPOCH := Date(1970, 1, 1)

  /** The date `n` days after (or `-n` days before) 1970-01-01. */
  function CalendarDay(n: int): (t: Date)
    ensures ValidDate(t)
    decreases if n < 0 then -n else n
  {
    if n == 0 then EPOCH
    else if n > 0 then NextDay(CalendarDay(n - 1))
    else PreviousDay(CalendarDay(n + 1))
  }

  lemma PreviousThenNext(t: Date)
    requires ValidDate(t)
    ensures ValidDate(PreviousDay(t)) && NextDay(PreviousDay(t)) == t
    ensures ValidDate(NextDay(t)) && PreviousDay(NextDay(t)) == t
  {
  }

  lemma CalendarSuccessor(n: int)
    ensures CalendarDay(n + 1) == NextDay(CalendarDay(n))
  {
    if n < 0 { PreviousThenNext(CalendarDay(n + 1)); }
  }

  // ----- The closed form

  const ERA := 146_097

  /** Days in the first `yoe` years of a 400-year era that starts on 1 March. */
  function YearStart(yoe: int): int {
    365 * yoe + yoe / 4 - yoe / 100
  }

  /** Days of a March-based year before month `mp` (0 is March). */
  function MonthStart(mp: int): int {
    (153 * mp + 2) / 5
  }

  function ToI32(x: int): int {
    (x + 0x8000_0000) % 0x1_0000_0000 - 0x8000_0000
  }

  function YearOfEra(doe: int): int {
    (doe - doe / 1460 + doe / 36_524 - doe / 146_096) / 365
  }

  /** The closed form before the year is narrowed to 32 bits. */
  function WideCivil(days: int): Date {
    var z := days + 719_468;
    var era := z / 146_097;
    var doe := z % 146_097;
    var yoe := YearOfEra(doe);
    var y := yoe + era * 400;
    var doy := doe - (365 * yoe + yoe / 4 - yoe / 100);
    var mp := (5 * doy + 2) / 153;
    var d := doy - (153 * mp + 2) / 5 + 1;
    var m := if mp < 10 then mp + 3 else mp - 9;
    Date(if m <= 2 then y + 1 else y, m, d)
  }

  function CivilFromUnixDays(days: int): Date {
    var t := WideCivil(days);
    t.(y := ToI32(t.y))
  }

  // ----- Year of the era

  /** `yoe` is the year that `doe` falls in; only the last year of an era has a day past
      `YearStart(yoe + 1)`. */
  predicate InYear(doe: int, yoe: int) {
    0 <= yoe <= 399 && YearStart(yoe) <= doe && (doe < YearStart(yoe + 1) || (yoe == 399 && doe == ERA - 1))
  }

  lemma YearOfEraIsRight(doe: int)
    requires 0 <= doe < ERA
    ensures InYear(doe, YearOfEra(doe))
  {
    var c := if doe == ERA - 1 then 3 else doe / 36_524;
    var inCentury := doe - 36_524 * c;
    var q := inCentury / 1461;
    var inQuad := inCentury - 1461 * q;
    var a := if inQuad == 1460 then 3 else inQuad / 365;
    YearFromParts(c, q, a, inQuad - 365 * a);
  }

  /** Century, four-year block, year and day determine the formula's carry. */
  lemma YearFromParts(c: int, q: int, a: int, e: int)
    requires 0 <= c <= 3 && 0 <= q <= 24 && 0 <= a <= 3 && 0 <= e <= 365
    requires e == 365 ==> a == 3 && (q < 24 || c == 3)
    ensures var doe := 36_524 * c + 1461 * q + 365 * a + e;
            YearOfEra(doe) == 100 * c + 4 * q + a && InYear(doe, YearOfEra(doe))
  {
    YearFormula(c, q, a, e);
    YearStartFromParts(c, q, a);
  }

  lemma YearStartFromParts(c: int, q: int, a: int)
    requires 0 <= c <= 3 && 0 <= q <= 24 && 0 <= a <= 3
    ensures var y := 100 * c + 4 * q + a;
            && YearStart(y) == 36_524 * c + 1461 * q + 365 * a
            && YearStart(y + 1) == YearStart(y) + 365 + (if a == 3 && q < 24 then 1 else 0)
  {
    var y := 100 * c + 4 * q + a;
    assert y / 4 == 25 * c + q && y / 100 == c;
    assert (y + 1) / 4 == 25 * c + q + (if a == 3 then 1 else 0);
    assert (y + 1) / 100 == c + (if a == 3 && q == 24 then 1 else 0);
  }

  lemma YearFormula(c: int, q: int, a: int, e: int)
    requires 0 <= c <= 3 && 0 <= q <= 24 && 0 <= a <= 3 && 0 <= e <= 365
    requires e == 365 ==> a == 3 && (q < 24 || c == 3)
    ensures YearOfEra(36_524 * c + 1461 * q + 365 * a + e) == 100 * c + 4 * q + a
  {
    var doe, y := 36_524 * c + 1461 * q + 365 * a + e, 100 * c + 4 * q + a;
    var rest := 24 * c + q + 365 * a + e;
    assert doe == 1460 * (25 * c + q) + rest;
    assert doe / 1460 == 25 * c + q + (if rest >= 1460 then 1 else 0);
    assert doe / 36_524 - doe / 146_096 == c;
    var carry := if rest >= 1460 then 1 else 0;
    assert doe - doe / 1460 + doe / 36_524 - doe / 146_096 == 365 * y + (e - carry);
  }

  /** The last day, from 0, of the year that starts on 1 March of `y`. */
  function LastDay(y: int): int {
    if IsLeap(y + 1) then 365 else 364
  }

  /** Day `doe` is at most the last day of year `yoe` of the era, and the last one of the era is; the day
      after falls in year `next`. */
  predicate DaysLeft(doe: int, yoe: int, next: int, last: int) {
    var doy := doe - YearStart(yoe);
    0 <= doy <= last &&
    if doe == ERA - 1 then yoe == 399 && doy == last
    else if doy == last then next == yoe + 1 && doe + 1 == YearStart(next)
    else next == yoe
  }

  lemma DaysLeftInYear(era: int, doe: int, yoe: int, next: int)
    requires 0 <= doe < ERA && InYear(doe, yoe) && (doe < ERA - 1 ==> InYear(doe + 1, next))
    ensures DaysLeft(doe, yoe, next, LastDay(yoe + era * 400))
  {
    if doe < ERA - 1 { NextDayInEra(era, doe, yoe, next); } else { LastDayOfEra(era, doe, yoe, next); }
  }

  lemma LastDayOfEra(era: int, doe: int, yoe: int, next: int)
    requires doe == ERA - 1 && InYear(doe, yoe)
    ensures DaysLeft(doe, yoe, next, LastDay(yoe + era * 400))
  {
    YearLength(era, yoe);
    OneYear(doe, yoe, 399);
  }

  lemma NextDayInEra(era: int, doe: int, yoe: int, next: int)
    requires 0 <= doe < ERA - 1 && InYear(doe, yoe) && InYear(doe + 1, next)
    ensures DaysLeft(doe, yoe, next, LastDay(yoe + era * 400))
  {
    YearLength(era, yoe);
    if doe + 1 == YearStart(yoe + 1) && yoe < 399 {
      YearLength(era, yoe + 1);
      OneYear(doe + 1, next, yoe + 1);
    } else {
      OneYear(doe + 1, next, yoe);
    }
  }

  lemma YearLength(era: int, yoe: int)
    requires 0 <= yoe <= 399
    ensures YearStart(yoe + 1) - YearStart(yoe) + (if yoe == 399 then 1 else 0) ==
            if IsLeap(yoe + era * 400 + 1) then 366 else 365
  {
    LeapYearsRepeat(yoe + 1, era);
    var c, q, a := yoe / 100, yoe % 100 / 4, yoe % 4;
    assert yoe == 100 * c + 4 * q + a;
    YearStartFromParts(c, q, a);
    LeapFromParts(c, q, a);
  }

  lemma LeapFromParts(c: int, q: int, a: int)
    requires 0 <= c <= 3 && 0 <= q <= 24 && 0 <= a <= 3
    ensures IsLeap(100 * c + 4 * q + a + 1) <==> a == 3 && (q < 24 || c == 3)
  {
    var y := 100 * c + 4 * q + a + 1;
    assert y % 4 == (a + 1) % 4;
    assert y % 100 == 0 <==> q == 24 && a == 3;
  }

  lemma LeapYearsRepeat(y: int, era: int)
    ensures IsLeap(y + era * 400) == IsLeap(y)
  {
    assert (y + era * 400) / 4 == y / 4 + 100 * era;
    assert (y + era * 400) / 100 == y / 100 + 4 * era;
    assert (y + era * 400) / 400 == y / 400 + era;
  }

  lemma OneYear(doe: int, y1: int, y2: int)
    requires InYear(doe, y1) && InYear(doe, y2)
    ensures y1 == y2
  {
    if y1 < y2 { YearStartMonotone(y1 + 1, y2); }
    if y2 < y1 { YearStartMonotone(y2 + 1, y1); }
  }

  lemma YearStartMonotone(a: int, b: int)
    requires 0 <= a <= b
    ensures YearStart(a) <= YearStart(b)
  {
  }

  // ----- Month and day of a March-based year

  /** Day `doy` of the March-based year `y`, when it falls in month `mp`. */
  function MonthDate(y: int, mp: int, doy: int): Date {
    var m := if mp < 10 then mp + 3 else mp - 9;
    Date(if m <= 2 then y + 1 else y, m, doy - MonthStart(mp) + 1)
  }

  function FromDayOfYear(y: int, doy: int): Date {
    MonthDate(y, (5 * doy + 2) / 153, doy)
  }

  predicate InMonth(doy: int, mp: int) {
    0 <= mp <= 11 && MonthStart(mp) <= doy < MonthStart(mp + 1)
  }

  lemma MonthIsRight(doy: int)
    requires 0 <= doy <= 365
    ensures InMonth(doy, (5 * doy + 2) / 153)
  {
  }

  lemma MonthLength(y: int, mp: int)
    requires 0 <= mp <= 11
    ensures MonthStart(11) == 337
    ensures mp < 11 ==> MonthStart(mp + 1) - MonthStart(mp) == DaysInMonth(y, if mp < 10 then mp + 3 else 1)
  {
  }

  lemma MonthDateSuccessor(y: int, doy: int, mp: int, next: int)
    requires InMonth(doy, mp) && 0 <= doy <= LastDay(y) && (doy < LastDay(y) ==> InMonth(doy + 1, next))
    ensures ValidDate(MonthDate(y, mp, doy))
    ensures NextDay(MonthDate(y, mp, doy)) == if doy == LastDay(y) then Date(y + 1, 3, 1)
            else MonthDate(y, next, doy + 1)
  {
    MonthLength(if mp == 10 then y + 1 else y, mp);
    if doy < LastDay(y) { OneMonth(doy + 1, next, if doy + 1 == MonthStart(mp + 1) && mp < 11 then mp + 1 else mp); }
  }

  lemma OneMonth(doy: int, mp1: int, mp2: int)
    requires InMonth(doy, mp1) && 0 <= mp2 <= 11 && MonthStart(mp2) <= doy && (mp2 == 11 || doy < MonthStart(mp2 + 1))
    ensures mp1 == mp2
  {
    if mp1 < mp2 { MonthStartMonotone(mp1 + 1, mp2); }
    if mp2 < mp1 { MonthStartMonotone(mp2 + 1, mp1); }
  }

  lemma MonthStartMonotone(a: int, b: int)
    requires a <= b
    ensures MonthStart(a) <= MonthStart(b)
  {
  }

  lemma DayOfYearSuccessor(y: int, doy: int)
    requires 0 <= doy <= LastDay(y)
    ensures ValidDate(FromDayOfYear(y, doy))
    ensures NextDay(FromDayOfYear(y, doy)) == if doy == LastDay(y) then FromDayOfYear(y + 1, 0)
            else FromDayOfYear(y, doy + 1)
  {
    MonthIsRight(doy);
    if doy < LastDay(y) { MonthIsRight(doy + 1); }
    MonthDateSuccessor(y, doy, (5 * doy + 2) / 153, (5 * (doy + 1) + 2) / 153);
  }

  // ----- The closed form is the calendar

  /** The date of day `doe` of an era, given the year of the era it falls in. */
  function EraDate(era: int, doe: int, yoe: int): Date {
    FromDayOfYear(yoe + era * 400, doe - YearStart(yoe))
  }

  lemma EraSuccessor(era: int, doe: int, yoe: int, next: int)
    requires 0 <= doe < ERA && InYear(doe, yoe) && (doe < ERA - 1 ==> InYear(doe + 1, next))
    ensures ValidDate(EraDate(era, doe, yoe))
    ensures NextDay(EraDate(era, doe, yoe)) == if doe == ERA - 1 then EraDate(era + 1, 0, 0)
            else EraDate(era, doe + 1, next)
  {
    DaysLeftInYear(era, doe, yoe, next);
    var y, doy := yoe + era * 400, doe - YearStart(yoe);
    var last := LastDay(y);
    if doy < last {
      InsideYear(y, doy, era, doe, yoe);
    } else if doe < ERA - 1 {
      EndOfYear(y, doy, era, doe, yoe, era, doe + 1, next);
    } else {
      EndOfYear(y, doy, era, doe, yoe, era + 1, 0, 0);
    }
  }

  lemma InsideYear(y: int, doy: int, era: int, doe: int, yoe: int)
    requires y == yoe + era * 400 && doy == doe - YearStart(yoe) && 0 <= doy < LastDay(y)
    ensures ValidDate(EraDate(era, doe, yoe)) && NextDay(EraDate(era, doe, yoe)) == EraDate(era, doe + 1, yoe)
  {
    DayOfYearSuccessor(y, doy);
  }

  lemma EndOfYear(y: int, doy: int, era: int, doe: int, yoe: int, nextEra: int, nextDoe: int, next: int)
    requires y == yoe + era * 400 && doy == doe - YearStart(yoe) && doy == LastDay(y)
    requires next + nextEra * 400 == y + 1 && nextDoe == YearStart(next)
    ensures ValidDate(EraDate(era, doe, yoe)) && NextDay(EraDate(era, doe, yoe)) == EraDate(nextEra, nextDoe, next)
  {
    DayOfYearSuccessor(y, doy);
  }

  lemma EraParts(z: int, era: int, doe: int)
    requires 0 <= doe < 146_097 && z == era * 146_097 + doe
    ensures z / 146_097 == era && z % 146_097 == doe
  {
  }

  lemma WideCivilParts(days: int, era: int, doe: int)
    requires 0 <= doe < ERA && days + 719_468 == era * ERA + doe
    ensures WideCivil(days) == EraDate(era, doe, YearOfEra(doe))
  {
    EraParts(days + 719_468, era, doe);
    PartsDate(era, doe, YearOfEra(doe));
  }

  /** The closed form's last steps, given the era, the day of it and the year. */
  lemma PartsDate(era: int, doe: int, yoe: int)
    ensures var doy := doe - (365 * yoe + yoe / 4 - yoe / 100);
            var mp := (5 * doy + 2) / 153;
            var m := if mp < 10 then mp + 3 else mp - 9;
            Date(if m <= 2 then yoe + era * 400 + 1 else yoe + era * 400, m, doy - (153 * mp + 2) / 5 + 1) ==
            EraDate(era, doe, yoe)
  {
  }

  lemma WideCivilAt(days: int, era: int, doe: int, yoe: int)
    requires 0 <= doe < ERA && days + 719_468 == era * ERA + doe && InYear(doe, yoe)
    ensures WideCivil(days) == EraDate(era, doe, yoe)
  {
    YearOfEraIsRight(doe);
    OneYear(doe, yoe, YearOfEra(doe));
    WideCivilParts(days, era, doe);
  }

  lemma EraOf(days: int) returns (era: int, doe: int)
    ensures 0 <= doe < ERA && days + 719_468 == era * ERA + doe
  {
    era, doe := (days + 719_468) / ERA, (days + 719_468) % ERA;
  }

  lemma {:induction false} SomeYear(doe: int) returns (yoe: int)
    requires 0 <= doe < ERA
    ensures InYear(doe, yoe)
  {
    YearOfEraIsRight(doe);
    yoe := YearOfEra(doe);
  }

  lemma NextDayInjective(a: Date, b: Date)
    requires ValidDate(a) && ValidDate(b) && NextDay(a) == NextDay(b)
    ensures a == b
  {
  }

  /** `f` gives a valid date for day `n`, and the day after it for `n + 1`. */
  predicate StepsFrom(f: int -> Date, n: int) {
    ValidDate(f(n)) && f(n + 1) == NextDay(f(n))
  }

  /** Only the calendar has the epoch on day 0 and steps from each day to the next, both ways. */
  lemma {:induction false} CalendarIsUnique(f: int -> Date, n: int)
    requires f(0) == EPOCH && forall k :: StepsFrom(f, k)
    ensures f(n) == CalendarDay(n)
    decreases if n < 0 then -n else n
  {
    if n > 0 {
      CalendarIsUnique(f, n - 1);
      assert StepsFrom(f, n - 1);
    } else if n < 0 {
      CalendarIsUnique(f, n + 1);
      assert StepsFrom(f, n);
      CalendarSuccessor(n);
      NextDayInjective(f(n), CalendarDay(n));
    }
  }

  /** Day `days` is day `doe` of era `era`, in year `yoe` of it. */
  predicate Position(days: int, era: int, doe: int, yoe: int) {
    0 <= doe < ERA && days + 719_468 == era * ERA + doe && InYear(doe, yoe)
  }

  lemma {:induction false} EraDateIsCalendar(days: int, era: int, doe: int, yoe: int)
    requires Position(days, era, doe, yoe)
    ensures EraDate(era, doe, yoe) == CalendarDay(days)
    decreases if days < 0 then -days else days
  {
    if days == 0 {
      EpochIsRight(era, doe, yoe);
    } else if days > 0 {
      var before, d, y := PositionBefore(days, era, doe, yoe);
      EraDateIsCalendar(days - 1, before, d, y);
      CalendarAfter(days, EraDate(before, d, y), EraDate(era, doe, yoe));
    } else {
      var after, d, y := PositionAfter(days, era, doe, yoe);
      EraDateIsCalendar(days + 1, after, d, y);
      CalendarBefore(days, EraDate(era, doe, yoe), EraDate(after, d, y));
    }
  }

  lemma CalendarAfter(days: int, s: Date, t: Date)
    requires s == CalendarDay(days - 1) && t == NextDay(s)
    ensures t == CalendarDay(days)
  {
    CalendarSuccessor(days - 1);
  }

  lemma CalendarBefore(days: int, s: Date, t: Date)
    requires ValidDate(s) && t == NextDay(s) && t == CalendarDay(days + 1)
    ensures s == CalendarDay(days)
  {
    CalendarSuccessor(days);
    NextDayInjective(s, CalendarDay(days));
  }

  lemma EpochIsRight(era: int, doe: int, yoe: int)
    requires Position(0, era, doe, yoe)
    ensures EraDate(era, doe, yoe) == EPOCH
  {
    assert YearStart(369) == 134_774 && YearStart(370) == 135_139;
    OneYear(doe, yoe, 369);
  }

  lemma PositionBefore(days: int, era: int, doe: int, yoe: int) returns (e: int, d: int, y: int)
    requires Position(days, era, doe, yoe)
    ensures Position(days - 1, e, d, y) && NextDay(EraDate(e, d, y)) == EraDate(era, doe, yoe)
  {
    if doe == 0 {
      e, d, y := era - 1, ERA - 1, 399;
      OneYear(0, yoe, 0);
    } else {
      e, d := era, doe - 1;
      y := SomeYear(d);
    }
    EraSuccessor(e, d, y, yoe);
  }

  lemma PositionAfter(days: int, era: int, doe: int, yoe: int) returns (e: int, d: int, y: int)
    requires Position(days, era, doe, yoe)
    ensures Position(days + 1, e, d, y) && ValidDate(EraDate(era, doe, yoe)) &&
            NextDay(EraDate(era, doe, yoe)) == EraDate(e, d, y)
  {
    if doe == ERA - 1 {
      e, d, y := era + 1, 0, 0;
    } else {
      e, d := era, doe + 1;
      y := SomeYear(d);
    }
    EraSuccessor(era, doe, yoe, y);
  }

  /** Every day, before or after the epoch. */
  lemma WideCivilIsCalendar(days: int)
    ensures WideCivil(days) == CalendarDay(days)
  {
    var era, doe := EraOf(days);
    var yoe := SomeYear(doe);
    WideCivilAt(days, era, doe, yoe);
    EraDateIsCalendar(days, era, doe, yoe);
  }

  // ----- Counting days from a date

  function DaysInYear(y: int): int {
    if IsLeap(y) then 366 else 365
  }

  /** Days from 1970-01-01 to 1 January of `y`. */
  function DaysBeforeYear(y: int): int
    decreases if y < 1970 then 1970 - y else y - 1970
  {
    if y == 1970 then 0
    else if y > 1970 then DaysBeforeYear(y - 1) + DaysInYear(y - 1)
    else DaysBeforeYear(y + 1) - DaysInYear(y)
  }

  function DaysBeforeMonth(y: int, m: int): int
    decreases m
  {
    if m <= 1 then 0 else DaysBeforeMonth(y, m - 1) + DaysInMonth(y, m - 1)
  }

  function DayNumber(t: Date): int {
    DaysBeforeYear(t.y) + DaysBeforeMonth(t.y, t.m) + t.d - 1
  }

  lemma MonthsFillYear(y: int)
    ensures DaysBeforeMonth(y, 13) == DaysInYear(y)
  {
    assert DaysBeforeMonth(y, 3) == 31 + DaysInMonth(y, 2);
    assert DaysBeforeMonth(y, 5) == DaysBeforeMonth(y, 3) + 61;
    assert DaysBeforeMonth(y, 7) == DaysBeforeMonth(y, 5) + 61;
    assert DaysBeforeMonth(y, 9) == DaysBeforeMonth(y, 7) + 62;
    assert DaysBeforeMonth(y, 11) == DaysBeforeMonth(y, 9) + 61;
  }

  lemma {:induction false} MonthsGrow(y: int, m: int)
    requires 1 <= m <= 13
    ensures 0 <= DaysBeforeMonth(y, m)
    ensures m <= 12 ==> DaysBeforeMonth(y, m) + DaysInMonth(y, m) <= DaysBeforeMonth(y, 13)
    decreases 13 - m
  {
    MonthsPositive(y, m);
    if m < 12 { MonthsGrow(y, m + 1); }
  }

  lemma {:induction false} MonthsPositive(y: int, m: int)
    ensures 0 <= DaysBeforeMonth(y, m)
    decreases m
  {
    if m > 1 { MonthsPositive(y, m - 1); }
  }

  lemma NextDayNumber(t: Date)
    requires ValidDate(t)
    ensures DayNumber(NextDay(t)) == DayNumber(t) + 1
  {
    if t.m == 12 { MonthsFillYear(t.y); }
  }

  lemma {:induction false} YearsApart(y: int)
    ensures y > 1970 ==> DaysBeforeYear(y) >= 365
    ensures y < 1970 ==> DaysBeforeYear(y) <= -DaysInYear(y)
    decreases if y < 1970 then 1970 - y else y - 1970
  {
    if y > 1971 { YearsApart(y - 1); }
    if y < 1969 { YearsApart(y + 1); }
  }

  lemma DayZeroIsEpoch(t: Date)
    requires ValidDate(t) && DayNumber(t) == 0
    ensures t == EPOCH
  {
    YearsApart(t.y);
    MonthsGrow(t.y, t.m);
    MonthsFillYear(t.y);
    if t.m > 1 { MonthsPositive(t.y, t.m - 1); }
  }

  lemma {:induction false} DayNumberOfCalendarDay(n: int)
    ensures DayNumber(CalendarDay(n)) == n
    decreases if n < 0 then -n else n
  {
    if n > 0 {
      DayNumberOfCalendarDay(n - 1);
      NextDayNumber(CalendarDay(n - 1));
    } else if n < 0 {
      DayNumberOfCalendarDay(n + 1);
      CalendarSuccessor(n);
      NextDayNumber(CalendarDay(n));
    }
  }

  lemma {:induction false} CalendarDayOfDayNumber(t: Date)
    requires ValidDate(t)
    ensures CalendarDay(DayNumber(t)) == t
    decreases if DayNumber(t) < 0 then -DayNumber(t) else DayNumber(t)
  {
    var n := DayNumber(t);
    if n == 0 {
      DayZeroIsEpoch(t);
    } else if n > 0 {
      PreviousThenNext(t);
      NextDayNumber(PreviousDay(t));
      CalendarDayOfDayNumber(PreviousDay(t));
    } else {
      NextDayNumber(t);
      PreviousThenNext(t);
      CalendarDayOfDayNumber(NextDay(t));
    }
  }

  /** Counting days and naming days are inverse to each other. */
  lemma WideCivilInvertsDayNumber(n: int, t: Date)
    requires ValidDate(t)
    ensures DayNumber(WideCivil(n)) == n
    ensures WideCivil(DayNumber(t)) == t
  {
    WideCivilIsCalendar(n);
    DayNumberOfCalendarDay(n);
    WideCivilIsCalendar(DayNumber(t));
    CalendarDayOfDayNumber(t);
  }

  // ----- The 32-bit year

  predicate Before(s: Date, t: Date) {
    s.y < t.y || (s.y == t.y && (s.m < t.m || (s.m == t.m && s.d < t.d)))
  }

  lemma {:induction false} LaterDayLaterDate(a: int, b: int)
    requires a < b
    ensures Before(CalendarDay(a), CalendarDay(b))
    decreases b - a
  {
    CalendarSuccessor(b - 1);
    if a < b - 1 { LaterDayLaterDate(a, b - 1); }
  }

  const FIRST_I32_DAY := -784_353_015_833   // 1 January of year -2^31
  const LAST_I32_DAY := 784_351_576_776     // 31 December of year 2^31 - 1

  lemma CalendarYearFitsI32(days: int)
    ensures -0x8000_0000 <= CalendarDay(days).y <= 0x7fff_ffff <==> FIRST_I32_DAY <= days <= LAST_I32_DAY
  {
    DayNamed(FIRST_I32_DAY, -5_368_710, 128_505, 351, Date(-0x8000_0000, 1, 1));
    DayNamed(LAST_I32_DAY, 5_368_709, 17_471, 47, Date(0x7fff_ffff, 12, 31));
    CalendarSuccessor(FIRST_I32_DAY - 1);
    CalendarSuccessor(LAST_I32_DAY);
    NextDayInjective(CalendarDay(FIRST_I32_DAY - 1), Date(-0x8000_0001, 12, 31));
    if days < FIRST_I32_DAY - 1 { LaterDayLaterDate(days, FIRST_I32_DAY - 1); }
    if days > FIRST_I32_DAY { LaterDayLaterDate(FIRST_I32_DAY, days); }
    if days < LAST_I32_DAY { LaterDayLaterDate(days, LAST_I32_DAY); }
    if days > LAST_I32_DAY + 1 { LaterDayLaterDate(LAST_I32_DAY + 1, days); }
  }

  lemma {:induction false} DayNamed(days: int, era: int, doe: int, yoe: int, t: Date)
    requires 0 <= doe < ERA && days + 719_468 == era * ERA + doe
    requires YearOfEra(doe) == yoe && EraDate(era, doe, yoe) == t
    ensures CalendarDay(days) == t
  {
    WideCivilParts(days, era, doe);
    WideCivilIsCalendar(days);
  }

  lemma NarrowingKeepsExactly(y: int)
    ensures ToI32(y) == y <==> -0x8000_0000 <= y <= 0x7fff_ffff
  {
  }

  lemma {:induction false} CivilNarrows(days: int, t: Date)
    requires t == CalendarDay(days)
    ensures CivilFromUnixDays(days) == t.(y := ToI32(t.y))
  {
    WideCivilIsCalendar(days);
  }

  /** The narrowed closed form names the right day exactly on the days whose year fits 32 bits. */
  lemma CivilIsCalendarExactlyWhenYearFits(days: int)
    ensures CivilFromUnixDays(days) == CalendarDay(days) <==> FIRST_I32_DAY <= days <= LAST_I32_DAY
  {
    var t := CalendarDay(days);
    CivilNarrows(days, t);
    NarrowingKeepsExactly(t.y);
    CalendarYearFitsI32(days);
  }
}
