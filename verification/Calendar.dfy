/**
 The calendar under the fee engine: Gregorian date to Julian day number and back, Zeller's weekday, and the
 day type (weekday or holiday) that selects a tariff row. Only the date part of the source's Julian dates is
 kept; the time of day is exact integer time in the fee engine.
 */
module Calendar {

  datatype Date = Date(year: int, month: int, day: int)

  // The leap rule of section 3.2.1 of ISO 8601:2004.
  predicate Leap(year: int) {
    year % 4 == 0 && (year % 100 != 0 || year % 400 == 0)
  }

  function MonthLength(year: int, month: int): int
    requires 1 <= month <= 12
  {
    if month == 2 then if Leap(year) then 29 else 28
    else if month == 4 || month == 6 || month == 9 || month == 11 then 30
    else 31
  }

  predicate ValidDate(date: Date) {
    && 1 <= date.year
    && 1 <= date.month <= 12
    && 1 <= date.day <= MonthLength(date.year, date.month)
  }

  function NextDate(date: Date): (next: Date)
    requires ValidDate(date)
    ensures ValidDate(next)
  {
    if date.day < MonthLength(date.year, date.month) then Date(date.year, date.month, date.day + 1)
    else if date.month < 12 then Date(date.year, date.month + 1, 1)
    else Date(date.year + 1, 1, 1)
  }

  /** The day number of a date, in the order of operations of the source (its long divisions truncate, and every
      quotient is non-negative from year 1 on). */
  function DayNumber(date: Date): int
    requires 1 <= date.month <= 12
  {
    var a := (14 - date.month) / 12;
    var y := date.year + 4800 - a;
    var m := date.month + 12 * a - 3;
    date.day + (153 * m + 2) / 5 + 365 * y + y / 4 - y / 100 + y / 400 - 32045
  }

  const FIRST_DAY_NUMBER := 1721426  // 0001-01-01

  // ---------- March-based years ----------

  // Days from March 1st to the first day of the m-th month after March, m = 0 for March.
  function MonthOffset(m: int): int {
    (153 * m + 2) / 5
  }

  // Days from March 1st of year 0 to March 1st of year y.
  function YearOffset(y: int): int {
    365 * y + y / 4 - y / 100 + y / 400
  }

  predicate MarchBased(y: int, m: int, d: int) {
    && 0 <= y
    && 0 <= m <= 11
    && 1 <= d <= (if m == 11 then if Leap(y + 1) then 29 else 28 else MonthOffset(m + 1) - MonthOffset(m))
  }

  lemma MonthOffsets(m: int)
    requires 0 <= m <= 11
    ensures MonthOffset(m) ==
            if m == 0 then 0 else if m == 1 then 31 else if m == 2 then 61 else if m == 3 then 92
            else if m == 4 then 122 else if m == 5 then 153 else if m == 6 then 184 else if m == 7 then 214
            else if m == 8 then 245 else if m == 9 then 275 else if m == 10 then 306 else 337
  {
  }

  // The year and month that the conversions count from March.
  function MarchYear(date: Date): int {
    if date.month <= 2 then date.year - 1 else date.year
  }

  function MarchMonth(date: Date): int {
    if date.month <= 2 then date.month + 9 else date.month - 3
  }

  lemma DayNumberFromMarch(date: Date)
    requires ValidDate(date)
    ensures MarchBased(MarchYear(date), MarchMonth(date), date.day)
    ensures DayNumber(date) == date.day + MonthOffset(MarchMonth(date)) + YearOffset(MarchYear(date)) + 1721119
  {
    var y, m := MarchYear(date), MarchMonth(date);
    MonthOffsets(m);
    if m < 11 { MonthOffsets(m + 1); }
    assert (14 - date.month) / 12 == if date.month <= 2 then 1 else 0;
    assert (y + 4800) / 4 == y / 4 + 1200;
    assert (y + 4800) / 100 == y / 100 + 48;
    assert (y + 4800) / 400 == y / 400 + 12;
  }

  // ---------- Day number to date ----------

  // The century and the day in it (from 0), the year of a century and its day (from 1), the month and its day,
  // all counted from March 1st.
  function SplitCentury(j: int): (int, int) {
    var century := (4 * j - 1) / 146097;
    (century, (4 * j - 1 - 146097 * century) / 4)
  }

  function SplitYear(d: int): (int, int) {
    var year := (4 * d + 3) / 1461;
    (year, (4 * d + 3 - 1461 * year + 4) / 4)
  }

  function SplitMonth(d: int): (int, int) {
    var month := (5 * d - 3) / 153;
    (month, (5 * d - 3 - 153 * month + 5) / 5)
  }

  function FromMarch(y: int, m: int, d: int): Date {
    if m < 10 then Date(y, m + 3, d) else Date(y + 1, m - 9, d)
  }

  function DateOf(dayNumber: int): Date {
    var (century, d) := SplitCentury(dayNumber - 1721119);
    var (year, dayOfYear) := SplitYear(d);
    var (month, day) := SplitMonth(dayOfYear);
    FromMarch(100 * century + year, month, day)
  }

  /** The date of a day number, step by step as the source reassigns its locals. From 0001-01-01 on no quotient is negative,
      so the truncation of the source is this division. */
  method DateOfDayNumber(dayNumber: int) returns (date: Date)
    requires FIRST_DAY_NUMBER <= dayNumber
    ensures date == DateOf(dayNumber)
    ensures ValidDate(date) && DayNumber(date) == dayNumber
  {
    DayNumberRoundTrip(dayNumber);
    hide DayNumber, ValidDate, DateOf;
    var j := dayNumber;
    j := j - 1721119;
    var y := (4 * j - 1) / 146097;
    j := 4 * j - 1 - 146097 * y;
    var d := j / 4;
    assert (y, d) == SplitCentury(dayNumber - 1721119);
    ghost var dayOfCentury := d;
    j := (4 * d + 3) / 1461;
    d := 4 * d + 3 - 1461 * j;
    d := (d + 4) / 4;
    assert (j, d) == SplitYear(dayOfCentury);
    ghost var dayOfYear := d;
    var m := (5 * d - 3) / 153;
    d := 5 * d - 3 - 153 * m;
    d := (d + 5) / 5;
    assert (m, d) == SplitMonth(dayOfYear);
    hide SplitCentury, SplitYear, SplitMonth;
    y := 100 * y + j;
    if m < 10 {
      m := m + 3;
    } else {
      m := m - 9;
      y := y + 1;
    }
    date := Date(y, m, d);
    DateOfParts(dayNumber);
  }

  // The parts of a date, in the order the conversion finds them.
  lemma DateOfParts(dayNumber: int)
    ensures var (century, d) := SplitCentury(dayNumber - 1721119);
            var (year, dayOfYear) := SplitYear(d);
            var (month, day) := SplitMonth(dayOfYear);
            DateOf(dayNumber) == FromMarch(100 * century + year, month, day)
  {
    hide SplitCentury, SplitYear, SplitMonth;
  }

  lemma CenturyOf(c: int, k: int)
    requires 0 <= c
    requires 1 <= k <= if c % 4 == 3 then 36525 else 36524
    ensures SplitCentury(36524 * c + c / 4 + k) == (c, k - 1)
  {
    var n := 4 * (36524 * c + c / 4 + k) - 1;
    assert 4 * (c / 4) == c - c % 4;
    assert n == 146097 * c + (4 * k - 1 - c % 4);
    assert 0 <= 4 * k - 1 - c % 4 < 146097;
  }

  lemma YearOf(u: int, doy: int)
    requires 0 <= u <= 99
    requires 1 <= doy <= if u % 4 == 3 then 366 else 365
    ensures SplitYear(365 * u + u / 4 + doy - 1) == (u, doy)
  {
    var d0 := 365 * u + u / 4 + doy - 1;
    assert 4 * (u / 4) == u - u % 4;
    assert 4 * d0 + 3 == 1461 * u + (4 * doy - 1 - u % 4);
    assert 0 <= 4 * doy - 1 - u % 4 < 1461;
  }

  lemma MonthOf(m: int, d: int)
    requires 0 <= m <= 11
    requires 1 <= d <= if m == 11 then 29 else MonthOffset(m + 1) - MonthOffset(m)
    ensures SplitMonth(MonthOffset(m) + d) == (m, d)
  {
    MonthOffsets(m);
    if m < 11 { MonthOffsets(m + 1); }
  }

  lemma YearSplit(y: int)
    requires 0 <= y
    ensures YearOffset(y) == 36524 * (y / 100) + (y / 100) / 4 + 365 * (y % 100) + (y % 100) / 4
    ensures Leap(y + 1) <==> (y % 100) % 4 == 3 && (y % 100 != 99 || (y / 100) % 4 == 3)
  {
    CenturyParts(y / 100, y % 100);
  }

  lemma CenturyParts(c: int, u: int)
    requires 0 <= c && 0 <= u <= 99
    ensures (100 * c + u) / 4 == 25 * c + u / 4
    ensures (100 * c + u) / 400 == c / 4
    ensures (100 * c + u + 1) % 4 == (u + 1) % 4
    ensures (100 * c + u + 1) % 100 == if u == 99 then 0 else u + 1
    ensures u == 99 ==> ((100 * c + u + 1) % 400 == 0 <==> c % 4 == 3)
  {
  }

  /** Round trip, one way: the date of a valid date's day number is that date. */
  lemma DateRoundTrip(date: Date)
    requires ValidDate(date)
    ensures DateOf(DayNumber(date)) == date
  {
    hide DayNumber, SplitCentury, SplitYear, SplitMonth;
    DayNumberFromMarch(date);
    var y, m := MarchYear(date), MarchMonth(date);
    var c, u := y / 100, y % 100;
    YearSplit(y);
    MonthOffsets(m);
    if m < 11 { MonthOffsets(m + 1); }
    var doy := MonthOffset(m) + date.day;
    assert 1 <= doy <= if u % 4 == 3 && (u != 99 || c % 4 == 3) then 366 else 365;
    var k := 365 * u + u / 4 + doy;
    assert 1 <= k <= if c % 4 == 3 then 36525 else 36524;
    assert DayNumber(date) - 1721119 == 36524 * c + c / 4 + k;
    CenturyOf(c, k);
    YearOf(u, doy);
    MonthOf(m, date.day);
  }

  /** Consecutive dates get consecutive day numbers, across month ends, leap years and centuries. */
  lemma NextDateNextNumber(date: Date)
    requires ValidDate(date)
    ensures DayNumber(NextDate(date)) == DayNumber(date) + 1
  {
    hide DayNumber, YearOffset;
    DayNumberFromMarch(date);
    DayNumberFromMarch(NextDate(date));
    var y, m := MarchYear(date), MarchMonth(date);
    MonthOffsets(m);
    if m < 11 {
      MonthOffsets(m + 1);
    } else {
      YearStep(y);
    }
  }

  // The length of the March-based year y is that of February in year y + 1.
  lemma YearStep(y: int)
    requires 0 <= y
    ensures YearOffset(y + 1) - YearOffset(y) == if Leap(y + 1) then 366 else 365
  {
    YearSplit(y);
    YearSplit(y + 1);
    hide YearOffset, Leap;
    assert (y + 1) / 100 == if y % 100 == 99 then y / 100 + 1 else y / 100;
    assert (y + 1) % 100 == if y % 100 == 99 then 0 else y % 100 + 1;
  }

  /** Every day number from 0001-01-01 on is the number of some valid date. */
  lemma {:induction false} EveryNumberHasDate(dayNumber: int) returns (date: Date)
    requires FIRST_DAY_NUMBER <= dayNumber
    ensures ValidDate(date) && DayNumber(date) == dayNumber
    decreases dayNumber - FIRST_DAY_NUMBER
  {
    if dayNumber == FIRST_DAY_NUMBER {
      date := Date(1, 1, 1);
    } else {
      var previous := EveryNumberHasDate(dayNumber - 1);
      NextDateNextNumber(previous);
      date := NextDate(previous);
    }
  }

  /** Round trip, the other way: from 0001-01-01 on, a day number is the number of its date. */
  lemma DayNumberRoundTrip(dayNumber: int)
    requires FIRST_DAY_NUMBER <= dayNumber
    ensures ValidDate(DateOf(dayNumber)) && DayNumber(DateOf(dayNumber)) == dayNumber
  {
    var date := EveryNumberHasDate(dayNumber);
    DateRoundTrip(date);
  }

  // ---------- Weekday ----------

  const WEEKDAY_TABLE: seq<int> := [6, 7, 1, 2, 3, 4, 5]

  // Zeller's sum, with January and February counted as months 13 and 14 of the year before.
  function Zeller(day: int, mon: int, year: int): int {
    var y := year % 100;
    var c := year / 100;
    day + (13 * (mon + 1)) / 5 + y + y / 4 + c / 4 + 5 * c
  }

  /** The weekday code of a date as the source computes it: Monday is 1, Sunday is 7. */
  method WeekdayOf(date: Date) returns (weekday: int)
    requires ValidDate(date)
    ensures weekday == DayNumber(date) % 7 + 1
  {
    hide DayNumber, Zeller;
    var year := date.year;
    var mon: int;
    if date.month > 2 {
      mon := date.month;
    } else {
      mon := 12 + date.month;
      year := year - 1;
    }
    ZellerAgrees(date);
    var w := Zeller(date.day, mon, year);
    w := w % 7;
    weekday := WEEKDAY_TABLE[w];
  }

  lemma ZellerAgrees(date: Date)
    requires ValidDate(date)
    ensures WEEKDAY_TABLE[Zeller(date.day, MarchMonth(date) + 3, MarchYear(date)) % 7] == DayNumber(date) % 7 + 1
  {
    hide DayNumber, Zeller, MarchMonth, MarchYear;
    var zeller := Zeller(date.day, MarchMonth(date) + 3, MarchYear(date));
    ZellerCongruence(date);
    TableShift(zeller);
  }

  lemma TableShift(zeller: int)
    ensures WEEKDAY_TABLE[zeller % 7] == (zeller + 5) % 7 + 1
  {
    var w := zeller % 7;
    SameRemainder(zeller + 5, w + 5, zeller / 7);
  }

  lemma ZellerCongruence(date: Date)
    requires ValidDate(date)
    ensures DayNumber(date) % 7 == (Zeller(date.day, MarchMonth(date) + 3, MarchYear(date)) + 5) % 7
  {
    hide DayNumber, YearOffset;
    var m, year := MarchMonth(date), MarchYear(date);
    var u, c := year % 100, year / 100;
    DayNumberFromMarch(date);
    YearSplit(year);
    ZellerMonth(m);
    var k := 4 * m + 52 * u + 5217 * c + 245872;
    var zeller := Zeller(date.day, m + 3, year);
    assert DayNumber(date) == zeller + 5 + 7 * k;
    SameRemainder(DayNumber(date), zeller + 5, k);
  }

  lemma ZellerMonth(m: int)
    requires 0 <= m <= 11
    ensures (13 * (m + 4)) / 5 == MonthOffset(m) + 10 - 28 * m
  {
    MonthOffsets(m);
  }

  lemma SameRemainder(a: int, b: int, k: int)
    requires a == b + 7 * k
    ensures a % 7 == b % 7
  {
  }

  /** Weekday codes step 1..7 cyclically over consecutive dates, for all time. */
  lemma WeekdaysCycle(date: Date)
    requires ValidDate(date)
    ensures DayNumber(NextDate(date)) % 7 + 1 == if DayNumber(date) % 7 + 1 == 7 then 1 else DayNumber(date) % 7 + 2
  {
    hide DayNumber;
    NextDateNextNumber(date);
  }
}
