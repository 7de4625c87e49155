/** Month and day from a day count, against the proleptic Gregorian calendar (section 5.7 and
    Appendix C of RFC 3339). */
module Calendar {
  import opened Bits

  datatype Date = Date(y: int, m: int, d: int)

  // ----- the calendar rule -----

  predicate Leap(y: int) { y % 4 == 0 && (y % 100 != 0 || y % 400 == 0) }

  function DaysInMonth(y: int, m: int): int
  {
    if m == 2 then (if Leap(y) then 29 else 28)
    else if m == 4 || m == 6 || m == 9 || m == 11 then 30
    else 31
  }

  predicate ValidDate(t: Date) { 1 <= t.m <= 12 && 1 <= t.d <= DaysInMonth(t.y, t.m) }

  function NextDay(t: Date): Date
  {
    if t.d < DaysInMonth(t.y, t.m) then Date(t.y, t.m, t.d + 1)
    else if t.m < 12 then Date(t.y, t.m + 1, 1)
    else Date(t.y + 1, 1, 1)
  }

  function PrevDay(t: Date): Date
  {
    if t.d > 1 then Date(t.y, t.m, t.d - 1)
    else if t.m > 1 then Date(t.y, t.m - 1, DaysInMonth(t.y, t.m - 1))
    else Date(t.y - 1, 12, 31)
  }

  const EPOCH := Date(1970, 1, 1)

  /** The date reached by stepping day by day from 1970-01-01. */
  function DateOf(days: int): Date
    decreases if days < 0 then -days else days
  {
    if days == 0 then EPOCH
    else if days > 0 then NextDay(DateOf(days - 1))
    else PrevDay(DateOf(days + 1))
  }

  // ----- the code -----

  function EraOf(z: int): int { TruncDiv(if z >= 0 then z else z - 146_096, 146_097) }
  function YearOfEra(doe: int): int { (doe - doe / 1460 + doe / 36524 - doe / 146096) / 365 }
  function YearStart(yoe: int): int { 365 * yoe + yoe / 4 - yoe / 100 }
  function MonthIndex(doy: int): int { (5 * doy + 2) / 153 }
  function MonthStart(mp: int): int { (153 * mp + 2) / 5 }

  /** `civil_from_days`: month and day. */
  function CivilFromDays(days: int): (int, int)
  {
    var z := days + 719_468;
    var era := EraOf(z);
    var doe := z - era * 146_097;
    var yoe := YearOfEra(doe);
    var doy := doe - YearStart(yoe);
    var mp := MonthIndex(doy);
    var d := doy - MonthStart(mp) + 1;
    var m := mp + if mp < 10 then 3 else -9;
    (m, d)
  }

  /** `split_utc`: month, day, hour, minute, second. */
  function SplitUtc(secs: int): (int, int, int, int, int)
  {
    var (m, d) := CivilFromDays(secs / 86_400);
    var sod := secs % 86_400;
    (m, d, sod / 3600, sod % 3600 / 60, sod % 60)
  }

  // ----- the same day as (era, year of era, day of year), years starting in March -----

  predicate LongYear(yoe: int) { (yoe + 1) % 4 == 0 && ((yoe + 1) % 100 != 0 || yoe == 399) }

  predicate InYear(yoe: int, doy: int)
  {
    0 <= yoe < 400 && 0 <= doy <= (if LongYear(yoe) then 365 else 364)
  }

  lemma EraIsFloor(z: int)
    ensures EraOf(z) == z / 146_097
    ensures 0 <= z - EraOf(z) * 146_097 < 146_097
  {
  }

  /** The year formula inverts the day-of-era formula. */
  lemma YearRecovered(yoe: int, doy: int)
    requires InYear(yoe, doy)
    ensures YearOfEra(YearStart(yoe) + doy) == yoe
    ensures 0 <= YearStart(yoe) + doy < 146_097
  {
    var c, q, r := yoe / 100, yoe % 100 / 4, yoe % 4;
    assert yoe == 100 * c + 4 * q + r;
    assert 0 <= c <= 3 && 0 <= q <= 24 && 0 <= r <= 3;
    assert yoe / 4 == 25 * c + q;
    YearParts(c, q, r, doy);
  }

  lemma YearParts(c: int, q: int, r: int, doy: int)
    requires 0 <= c <= 3 && 0 <= q <= 24 && 0 <= r <= 3
    requires 0 <= doy <= 365
    requires doy == 365 ==> r == 3 && (q != 24 || c == 3)
    ensures YearOfEra(36524 * c + 1461 * q + 365 * r + doy) == 100 * c + 4 * q + r
    ensures 36524 * c + 1461 * q + 365 * r + doy < 146_097
  {
    var doe := 36524 * c + 1461 * q + 365 * r + doy;
    var a, b, e := doe / 1460, doe / 36524, doe / 146096;
    var rest := 24 * c + q + 365 * r + doy;
    assert doe == 1460 * (25 * c + q) + rest;
    assert a == 25 * c + q + (if rest >= 1460 then 1 else 0);
    assert b == (if doe == 146096 then 4 else c);
    assert e == (if doe == 146096 then 1 else 0);
    var x := doe - a + b - e;
    assert 365 * (100 * c + 4 * q + r) <= x < 365 * (100 * c + 4 * q + r) + 365;
  }

  /** Every day of an era belongs to exactly one of its years. */
  lemma YearExists(doe: int) returns (yoe: int, doy: int)
    requires 0 <= doe < 146_097
    ensures InYear(yoe, doy) && doe == YearStart(yoe) + doy
  {
    var c := if doe == 146_096 then 3 else doe / 36524;
    var inCentury := doe - 36524 * c;
    var q := inCentury / 1461;
    var inQuad := inCentury - 1461 * q;
    var r := if inQuad == 1460 then 3 else inQuad / 365;
    yoe, doy := 100 * c + 4 * q + r, inQuad - 365 * r;
    assert 0 <= c <= 3 && 0 <= q <= 24 && 0 <= r <= 3;
    assert yoe / 4 == 25 * c + q && yoe / 100 == c;
    assert doy == 365 ==> inQuad == 1460 && r == 3;
    assert (yoe + 1) % 4 == (r + 1) % 4;
  }

  // ----- dates in that form -----

  /** The date of day `doy` of March-based year `yoe` of an era, year included. */
  function DateIn(era: int, yoe: int, doy: int): Date
  {
    var mp := MonthIndex(doy);
    var m := mp + if mp < 10 then 3 else -9;
    Date(400 * era + yoe + (if m <= 2 then 1 else 0), m, doy - MonthStart(mp) + 1)
  }

  /** The code's result with the year the source has commented out. */
  function CivilDate(days: int): Date
  {
    var z := days + 719_468;
    var era := EraOf(z);
    var doe := z - era * 146_097;
    DateIn(era, YearOfEra(doe), doe - YearStart(YearOfEra(doe)))
  }

  lemma CivilDateIs(era: int, yoe: int, doy: int)
    requires InYear(yoe, doy)
    ensures CivilDate(146_097 * era + YearStart(yoe) + doy - 719_468) == DateIn(era, yoe, doy)
  {
    hide YearOfEra, YearStart, EraOf, DateIn, InYear;
    var doe := YearStart(yoe) + doy;
    YearRecovered(yoe, doy);
    var z := 146_097 * era + doe;
    EraIsFloor(z);
    FloorAdd(146_097, era, doe);
    assert EraOf(z) == era;
  }

  lemma LeapIsLong(era: int, yoe: int)
    requires 0 <= yoe < 400
    ensures Leap(400 * era + yoe + 1) <==> LongYear(yoe)
  {
    var y := yoe + 1;
    FloorAdd(4, 100 * era, y);
    FloorAdd(100, 4 * era, y);
    FloorAdd(400, era, y);
  }

  /** Inside a year the date steps by the calendar rule, and every date is valid. */
  lemma StepInYear(era: int, yoe: int, doy: int)
    requires InYear(yoe, doy)
    ensures ValidDate(DateIn(era, yoe, doy))
    ensures InYear(yoe, doy + 1) ==> DateIn(era, yoe, doy + 1) == NextDay(DateIn(era, yoe, doy))
    ensures !InYear(yoe, doy + 1) ==>
              NextDay(DateIn(era, yoe, doy)) == Date(400 * era + yoe + 1, 3, 1)
  {
    hide Leap, LongYear, MonthIndex, MonthStart;
    LeapIsLong(era, yoe);
    MonthSpan(doy);
    if InYear(yoe, doy + 1) {
      MonthSpan(doy + 1);
    }
  }

  /** Days of a March-based year before its month `mp`. */
  function DaysBefore(mp: int): int
  {
    if mp <= 5 then
      (if mp == 0 then 0 else if mp == 1 then 31 else if mp == 2 then 61
       else if mp == 3 then 92 else if mp == 4 then 122 else 153)
    else
      (if mp == 6 then 184 else if mp == 7 then 214 else if mp == 8 then 245
       else if mp == 9 then 275 else if mp == 10 then 306 else 337)
  }

  /** The month formulas agree with the lengths of the months. */
  lemma MonthSpan(doy: int)
    requires 0 <= doy <= 365
    ensures 0 <= MonthIndex(doy) <= 11
    ensures MonthStart(MonthIndex(doy)) == DaysBefore(MonthIndex(doy)) <= doy
    ensures MonthIndex(doy) < 11 ==> doy < DaysBefore(MonthIndex(doy) + 1)
  {
  }

  lemma MarchFirst(era: int, yoe: int)
    requires 0 <= yoe < 400
    ensures CivilDate(146_097 * era + YearStart(yoe) - 719_468) == Date(400 * era + yoe, 3, 1)
  {
    hide CivilDate, YearStart;
    CivilDateIs(era, yoe, 0);
  }

  lemma FirstYear()
    ensures YearStart(0) == 0
  {
  }

  lemma YearStep(yoe: int)
    requires 0 <= yoe < 400
    ensures YearStart(yoe) + (if LongYear(yoe) then 366 else 365) ==
            if yoe < 399 then YearStart(yoe + 1) else 146_097
  {
  }

  /** The day after, on the code's result, is the calendar's next day. */
  lemma CivilDateSteps(days: int)
    ensures ValidDate(CivilDate(days))
    ensures CivilDate(days + 1) == NextDay(CivilDate(days))
  {
    hide CivilDate, DateIn, NextDay, ValidDate, EraOf, YearStart, LongYear;
    var z := days + 719_468;
    EraIsFloor(z);
    var era := EraOf(z);
    var doe := z - era * 146_097;
    var yoe, doy := YearExists(doe);
    CivilDateIs(era, yoe, doy);
    StepInYear(era, yoe, doy);
    if InYear(yoe, doy + 1) {
      CivilDateIs(era, yoe, doy + 1);
    } else {
      MarchFirst(if yoe < 399 then era else era + 1, if yoe < 399 then yoe + 1 else 0);
      YearStep(yoe);
      assert YearStart(0) == 0 by { FirstYear(); }
    }
  }

  lemma PrevUndoesNext(t: Date)
    requires ValidDate(t)
    ensures PrevDay(NextDay(t)) == t
  {
  }

  lemma {:induction false} DateOfIsCivil(days: int)
    ensures DateOf(days) == CivilDate(days)
    decreases if days < 0 then -days else days
  {
    hide CivilDate, NextDay, PrevDay, ValidDate;
    if days == 0 {
      EpochIsCivil();
    } else if days > 0 {
      DateOfIsCivil(days - 1);
      CivilDateSteps(days - 1);
    } else {
      DateOfIsCivil(days + 1);
      CivilDateSteps(days);
      PrevUndoesNext(CivilDate(days));
    }
  }

  lemma EpochIsCivil()
    ensures CivilDate(0) == EPOCH
  {
    assert YearStart(369) + 306 == 719_468 - 4 * 146_097;
    assert MonthIndex(306) == 10 && MonthStart(10) == 306;
    hide YearStart, MonthIndex, MonthStart;
    CivilDateIs(4, 369, 306);
  }

  // ----- the results -----

  /** For every day, before and after 1970, the code gives the month and day of the date that day
      by day stepping reaches. */
  lemma {:induction false} CivilFromDaysCorrect(days: int)
    ensures CivilFromDays(days) == (DateOf(days).m, DateOf(days).d)
    ensures ValidDate(DateOf(days))
  {
    DateOfIsCivil(days);
    CivilDateSteps(days);
    hide DateOf, EraOf, YearOfEra, YearStart, MonthIndex, MonthStart, ValidDate;
  }

  /** Day count of a date, the inverse of stepping. */
  function DaysFromCivil(t: Date): int
  {
    var y := if t.m <= 2 then t.y - 1 else t.y;
    var mp := if t.m <= 2 then t.m + 9 else t.m - 3;
    146_097 * (y / 400) + YearStart(y % 400) + MonthStart(mp) + t.d - 1 - 719_468
  }

  lemma {:induction false} DaysRoundTrip(days: int)
    ensures DaysFromCivil(DateOf(days)) == days
  {
    hide DateOf, EraOf, YearOfEra, YearStart, CivilDate, MonthIndex, MonthStart, LongYear;
    DateOfIsCivil(days);
    var z := days + 719_468;
    EraIsFloor(z);
    var era := EraOf(z);
    var yoe, doy := YearExists(z - era * 146_097);
    CivilDateIs(era, yoe, doy);
    MonthSpan(doy);
    FloorAdd(400, era, yoe);
  }

  /** The calendar repeats every 400 years. */
  lemma {:induction false} Repeats(days: int)
    ensures CivilFromDays(days + 146_097) == CivilFromDays(days)
  {
    EraIsFloor(days + 719_468);
    EraIsFloor(days + 146_097 + 719_468);
    hide YearOfEra, YearStart, MonthIndex, MonthStart, EraOf;
  }
}
