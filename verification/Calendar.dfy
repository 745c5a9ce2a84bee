/** `civil_from_days` of backend/src/config.rs and backend/src/http.rs, and `iso_from_ms`. */
module Calendar {
  import opened Division
  import opened Numerals

  datatype Date = Date(year: int, month: int, day: int)

  // ==== the Gregorian calendar ====

  predicate IsLeap(y: int) {
    y % 4 == 0 && (y % 100 != 0 || y % 400 == 0)
  }

  function MonthDays(y: int, m: int): int {
    if m == 2 then (if IsLeap(y) then 29 else 28)
    else if m == 4 || m == 6 || m == 9 || m == 11 then 30
    else 31
  }

  predicate IsDate(d: Date) {
    1 <= d.month <= 12 && 1 <= d.day <= MonthDays(d.year, d.month)
  }

  function NextDay(d: Date): Date {
    if d.day < MonthDays(d.year, d.month) then Date(d.year, d.month, d.day + 1)
    else if d.month < 12 then Date(d.year, d.month + 1, 1)
    else Date(d.year + 1, 1, 1)
  }

  predicate Earlier(a: Date, b: Date) {
    || a.year < b.year
    || (a.year == b.year && a.month < b.month)
    || (a.year == b.year && a.month == b.month && a.day < b.day)
  }

  // ==== the code ====

  /** The year within an era of 400 years that begins in March. */
  function YearOfEra(doe: int): int {
    (doe - doe / 1460 + doe / 36_524 - doe / 146_096) / 365
  }

  /** The date of a day counted from 1 March of year `y`. */
  function FromYearDay(y: int, doy: int): Date {
    var mp := (5 * doy + 2) / 153;
    var d := doy - (153 * mp + 2) / 5 + 1;
    var m := if mp < 10 then mp + 3 else mp - 9;
    Date(if m <= 2 then y + 1 else y, m, d)
  }

  /** `civil_from_days` */
  function CivilFromDays(days: int): Date {
    var z := days + 719_468;
    var era := z / 146_097;
    var doe := z % 146_097;
    var yoe := YearOfEra(doe);
    var y := yoe + era * 400;
    var doy := doe - (365 * yoe + yoe / 4 - yoe / 100);
    FromYearDay(y, doy)
  }

  /** `as u32`, as the copy in config.rs narrows month and day. */
  function Narrowed(x: int): int {
    x % U32_LIMIT
  }

  function FromYearDayNarrowed(y: int, doy: int): Date {
    var mp := (5 * doy + 2) / 153;
    var d := Narrowed(doy - (153 * mp + 2) / 5 + 1);
    var m := Narrowed(if mp < 10 then mp + 3 else mp - 9);
    Date(if m <= 2 then y + 1 else y, m, d)
  }

  /** The copy in config.rs. */
  function NarrowedCivil(days: int): Date {
    var z := days + 719_468;
    var era := z / 146_097;
    var doe := z % 146_097;
    var yoe := YearOfEra(doe);
    var y := yoe + era * 400;
    var doy := doe - (365 * yoe + yoe / 4 - yoe / 100);
    FromYearDayNarrowed(y, doy)
  }

  // ==== counting days ====

  /** Days from 1 March of year 0 to 1 March of year `y`. */
  function YearStart(y: int): int {
    365 * y + y / 4 - y / 100 + y / 400
  }

  /** Days from 1 March to the first of the month `mp` months later. */
  function MonthStart(mp: int): int {
    (153 * mp + 2) / 5
  }

  /** Days from 1970-01-01 to a date. */
  function DaysFromCivil(d: Date): int {
    var y := if d.month <= 2 then d.year - 1 else d.year;
    var mp := if d.month <= 2 then d.month + 9 else d.month - 3;
    YearStart(y) + MonthStart(mp) + d.day - 1 - 719_468
  }

  lemma YearStartGrows(a: int, b: int)
    requires a <= b
    ensures YearStart(a) <= YearStart(b) && (a < b ==> YearStart(a) + 365 <= YearStart(b))
    decreases b - a
  {
    if a < b {
      YearStartGrows(a, b - 1);
      YearLength(b - 1);
    }
  }

  lemma YearLength(y: int)
    ensures YearStart(y + 1) - YearStart(y) == if IsLeap(y + 1) then 366 else 365
  {
    Quotient(y, 4);
    Quotient(y, 100);
    Quotient(y, 400);
  }

  lemma Quotient(y: int, n: int)
    requires n > 1
    ensures (y + 1) / n == y / n + if (y + 1) % n == 0 then 1 else 0
  {
    var q, m := y / n, y % n;
    assert y == n * q + m;
    if m == n - 1 {
      assert y + 1 == n * (q + 1);
      QuotientIs(y + 1, n, q + 1, 0);
    } else {
      QuotientIs(y + 1, n, q, m + 1);
    }
  }

  lemma EraShift(era: int, y: int)
    ensures YearStart(400 * era + y) == 146_097 * era + YearStart(y)
  {
    assert (400 * era + y) / 4 == 100 * era + y / 4;
    assert (400 * era + y) / 100 == 4 * era + y / 100;
    assert (400 * era + y) / 400 == era + y / 400;
  }

  /** The year that holds a day of an era. */
  lemma YearOfDay(doe: int, top: int) returns (t: int)
    requires 0 <= top < 400 && 0 <= doe < YearStart(top + 1)
    ensures 0 <= t <= top && YearStart(t) <= doe < YearStart(t + 1)
    decreases top
  {
    if doe >= YearStart(top) {
      t := top;
    } else {
      t := YearOfDay(doe, top - 1);
    }
  }

  /** The closed formula of the code finds that year. */
  lemma YearFormula(doe: int, t: int)
    requires 0 <= t < 400 && YearStart(t) <= doe < YearStart(t + 1)
    ensures YearOfEra(doe) == t
  {
    var o := doe - YearStart(t);
    var q, j, h, k := t / 4, t % 4, t / 100, t % 100;
    YearLength(t);
    CenturyTerm(doe, t, o);
    LeapTerm(doe, t, o);
    var s := doe - doe / 1460 + doe / 36_524 - doe / 146_096;
    assert YearStart(t) == 365 * t + q - h;
    QuotientIs(s, 365, t, s - 365 * t);
  }

  /** The terms for centuries and eras cancel the century years that are not leap years. */
  lemma CenturyTerm(doe: int, t: int, o: int)
    requires 0 <= t < 400 && doe == YearStart(t) + o && 0 <= o <= 365 && (o == 365 ==> IsLeap(t + 1))
    ensures doe / 36_524 - doe / 146_096 == t / 100
  {
    var h, k := t / 100, t % 100;
    assert t / 4 == 25 * h + k / 4;
    var rest := 365 * k + k / 4 + o;
    assert doe == 36_524 * h + rest;
    if rest == 36_524 {
      assert k == 99 && h == 3;
    } else {
      QuotientIs(doe, 36_524, h, rest);
      QuotientIs(doe, 146_096, 0, doe);
    }
  }

  /** The term for leap years counts them, or one more at the end of a leap cycle. */
  lemma LeapTerm(doe: int, t: int, o: int)
    requires 0 <= t < 400 && doe == YearStart(t) + o && 0 <= o <= 365 && (o == 365 ==> IsLeap(t + 1))
    ensures t / 4 + o - 364 <= doe / 1460 <= t / 4 + o
  {
    var q, j, h := t / 4, t % 4, t / 100;
    var rest := q + 365 * j + o - h;
    assert doe == 1460 * q + rest;
    if rest < 1460 {
      QuotientIs(doe, 1460, q, rest);
    } else {
      QuotientIs(doe, 1460, q + 1, rest - 1460);
    }
  }

  /** The March-based year and the day in it. */
  lemma CivilParts(days: int) returns (y: int, doy: int)
    ensures days + 719_468 == YearStart(y) + doy && 0 <= doy < YearStart(y + 1) - YearStart(y)
    ensures CivilFromDays(days) == FromYearDay(y, doy) && NarrowedCivil(days) == FromYearDayNarrowed(y, doy)
  {
    hide FromYearDay, FromYearDayNarrowed, YearOfEra;
    var z := days + 719_468;
    var era, doe := z / 146_097, z % 146_097;
    var t := YearOfDay(doe, 399);
    YearFormula(doe, t);
    YearInEra(t);
    EraShift(era, t);
    EraShift(era, t + 1);
    y := 400 * era + t;
    doy := doe - YearStart(t);
  }

  lemma YearInEra(t: int)
    requires 0 <= t < 400
    ensures YearStart(t) == 365 * t + t / 4 - t / 100
  {
  }

  lemma MonthInYear(doy: int)
    requires 0 <= doy < 366
    ensures var mp := (5 * doy + 2) / 153; 0 <= mp < 12 && MonthStart(mp) <= doy < MonthStart(mp + 1)
  {
  }

  lemma YearDayIsDate(y: int, doy: int)
    requires 0 <= doy < YearStart(y + 1) - YearStart(y)
    ensures IsDate(FromYearDay(y, doy)) && DaysFromCivil(FromYearDay(y, doy)) + 719_468 == YearStart(y) + doy
    ensures FromYearDayNarrowed(y, doy) == FromYearDay(y, doy)
  {
    YearLength(y);
    hide YearStart, IsLeap;
    MonthInYear(doy);
  }

  /** `civil_from_days` always gives a valid date, and the date of that day. */
  lemma CivilIsDate(days: int)
    ensures IsDate(CivilFromDays(days)) && DaysFromCivil(CivilFromDays(days)) == days
  {
    hide CivilFromDays, NarrowedCivil, YearStart, DaysFromCivil, IsDate, FromYearDay, FromYearDayNarrowed;
    var y, doy := CivilParts(days);
    YearDayIsDate(y, doy);
  }

  /** Both copies give the same date for every day. */
  lemma CopiesAgree(days: int)
    ensures NarrowedCivil(days) == CivilFromDays(days)
  {
    hide CivilFromDays, NarrowedCivil, YearStart, DaysFromCivil, IsDate, FromYearDay, FromYearDayNarrowed;
    var y, doy := CivilParts(days);
    YearDayIsDate(y, doy);
  }

  /** Every valid date is the date of its day: with the above, a bijection. */
  lemma DateIsCivil(d: Date)
    requires IsDate(d)
    ensures CivilFromDays(DaysFromCivil(d)) == d
  {
    var days := DaysFromCivil(d);
    CivilIsDate(days);
    SameDay(d, CivilFromDays(days));
  }

  lemma SameDay(a: Date, b: Date)
    requires IsDate(a) && IsDate(b) && DaysFromCivil(a) == DaysFromCivil(b)
    ensures a == b
  {
    if Earlier(a, b) {
      LaterDay(a, b);
    } else if Earlier(b, a) {
      LaterDay(b, a);
    }
  }

  /** The year that begins in March. */
  function MarchYear(d: Date): int {
    if d.month <= 2 then d.year - 1 else d.year
  }

  lemma LaterInYear(a: Date, b: Date)
    requires IsDate(a) && IsDate(b) && Earlier(a, b) && MarchYear(a) == MarchYear(b)
    ensures DaysFromCivil(a) < DaysFromCivil(b)
  {
    hide YearStart, IsLeap;
  }

  /** Counting days keeps the order of dates. */
  lemma LaterDay(a: Date, b: Date)
    requires IsDate(a) && IsDate(b) && Earlier(a, b)
    ensures DaysFromCivil(a) < DaysFromCivil(b)
  {
    hide YearStart, DaysFromCivil, IsDate;
    if MarchYear(a) == MarchYear(b) {
      LaterInYear(a, b);
    } else {
      DayInYear(a);
      DayInYear(b);
      MarchOrder(a, b);
      YearStartGrows(MarchYear(a) + 1, MarchYear(b));
    }
  }

  lemma MarchOrder(a: Date, b: Date)
    requires Earlier(a, b)
    ensures MarchYear(a) <= MarchYear(b)
  {
  }

  lemma DayInYear(d: Date)
    requires IsDate(d)
    ensures YearStart(MarchYear(d)) <= DaysFromCivil(d) + 719_468 < YearStart(MarchYear(d) + 1)
  {
    YearLength(MarchYear(d));
    hide YearStart;
  }

  lemma NextIsNext(d: Date)
    requires IsDate(d)
    ensures IsDate(NextDay(d)) && DaysFromCivil(NextDay(d)) == DaysFromCivil(d) + 1
  {
    YearLength(d.year - 1);
    hide YearStart;
  }

  lemma EpochDay()
    ensures IsDate(Date(1970, 1, 1)) && DaysFromCivil(Date(1970, 1, 1)) == 0
  {
  }

  /** Day 0 is 1970-01-01. */
  lemma Epoch()
    ensures CivilFromDays(0) == Date(1970, 1, 1)
  {
    hide CivilFromDays, DaysFromCivil, IsDate;
    EpochDay();
    DateIsCivil(Date(1970, 1, 1));
  }

  /** Each day is followed by its Gregorian successor. */
  lemma CivilSuccessor(days: int)
    ensures CivilFromDays(days + 1) == NextDay(CivilFromDays(days))
  {
    hide CivilFromDays, DaysFromCivil, IsDate, NextDay;
    var d := CivilFromDays(days);
    CivilIsDate(days);
    NextIsNext(d);
    DateIsCivil(NextDay(d));
  }

  /** Dates are in the order of their days. */
  lemma CivilOrder(a: int, b: int)
    ensures a < b <==> Earlier(CivilFromDays(a), CivilFromDays(b))
  {
    CivilIsDate(a);
    CivilIsDate(b);
    hide CivilFromDays, DaysFromCivil, IsDate;
    var x, y := CivilFromDays(a), CivilFromDays(b);
    if Earlier(x, y) {
      LaterDay(x, y);
    } else if Earlier(y, x) {
      LaterDay(y, x);
    }
  }
}
