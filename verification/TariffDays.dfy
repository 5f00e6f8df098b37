/**
 Which row and which zone charge a minute of the calendar.
 */
module TariffDays {
  import opened Calendar
  import opened Tariff
  import opened FeeEngine

  // ---------- The row of a date ----------

  const EPOCH := Date(1970, 1, 1)

  // The day of the fee engine.
  function DayOf(date: Date): int
    requires ValidDate(date)
  {
    DayNumber(date) - DayNumber(EPOCH)
  }

  predicate IsHoliday(holidays: Holidays, date: Date)
    requires ValidDate(date)
  {
    DayOf(date) in holidays.days
  }

  // Monday is 1, Sunday is 7.
  function WeekdayOn(date: Date): int
    requires ValidDate(date)
  {
    DayNumber(date) % 7 + 1
  }

  /** The slot of a date: its weekday; 8 on a holiday, or 7 where eves have a slot of their own, which is then 8 on a Monday to
      Friday before a holiday. */
  lemma DayTypeOfDate(holidays: Holidays, date: Date)
    requires ValidDate(date)
    ensures DayType(holidays, DayOf(date))
         == if IsHoliday(holidays, date) then (if holidays.hasEve then 7 else 8)
            else if holidays.hasEve && WeekdayOn(date) <= 5 && IsHoliday(holidays, NextDate(date)) then 8
            else WeekdayOn(date)
  {
    NextDateNextNumber(date);
    assert DayNumber(EPOCH) == 2440588;
    hide DayNumber, NextDate;
  }

  // The weekday codes count from a Monday: 1970-01-01 was a Thursday, and 2025-01-01 a Wednesday.
  lemma KnownWeekdays()
    ensures WeekdayOn(EPOCH) == 4 && DayOf(EPOCH) == 0
    ensures WeekdayOn(Date(2025, 1, 1)) == 3 && DayOf(Date(2025, 1, 1)) == 20089
  {
    assert DayNumber(EPOCH) == 2440588;
    assert DayNumber(Date(2025, 1, 1)) == 2460677;
    hide DayNumber;
  }

  // ---------- The table of a day ----------

  /** A day has a table if the rows of the day and of the day before are defined and close, and that of the day after is defined.
      Otherwise its code is -4 if the first row in trouble is defined but does not close, and -2 if it is not defined,
      as one without a first start is not. */
  lemma LoadsOrFails(rows: Rows, holidays: Holidays, day: int)
    ensures var before, row, next := RowOf(rows, holidays, day - 1), RowOf(rows, holidays, day), RowOf(rows, holidays, day + 1);
            var closed, closes := Defined(before) && MaxZone(before) != 0, Defined(row) && MaxZone(row) != 0;
            var loaded := LoadDay(rows, holidays, day);
            && (loaded.Ok? <==> closed && closes && Defined(next))
            && (loaded.Fault? ==>
                  loaded.code == if Defined(before) && (!closed || (Defined(row) && !closes)) then -4 else -2)
            && (closed && |row.zones| == 9 && row.zones[0].start == EMPTY ==> loaded == Fault(-2))
  {
    hide MaxZone, RowOf, AssembleDay;
  }

  // ---------- The zone of a minute ----------

  // The zone of the row that has begun at a minute of the day, and the next one that has not.
  predicate RowZone(row: Row, j: int, minute: int)
    requires Defined(row)
  {
    && 0 <= j < MaxZone(row) && row.zones[j].start <= minute
    && (j + 1 < MaxZone(row) ==> minute < row.zones[j + 1].start)
  }

  /** From the row's first start on, a day is charged by the row's zone that has begun last, up to the next zone's start, the next
      day's first start, or midnight with day cutoff; before that by the last zone of the day before. */
  predicate ZoneCharges(before: Row, row: Row, next: Row, day: int, table: Day, k: int, minute: int)
    requires Defined(before) && Defined(row) && Defined(next) && MaxZone(before) != 0
    requires 0 <= k < |table.zones| && |table.bounds| == |table.zones| + 1
  {
    var first := row.zones[0].start;
    if minute < first then
      && table.zones[k] == before.zones[MaxZone(before) - 1]
      && table.bounds[k] == (day - 1) * DAY + before.zones[MaxZone(before) - 1].start
      && table.bounds[k + 1] == day * DAY + first
    else
      exists j | 0 <= j < MaxZone(row) :: RowZone(row, j, minute)
        && table.zones[k] == row.zones[j] && table.bounds[k] == day * DAY + row.zones[j].start
        && table.bounds[k + 1] == if j + 1 < MaxZone(row) then day * DAY + row.zones[j + 1].start
                                  else (day + 1) * DAY + if row.dayCutoff then 0 else next.zones[0].start
  }

  /** The zone that the lookup finds at any minute of a day. */
  lemma ZoneOfMinute(rows: Rows, holidays: Holidays, day: int, pt: int)
    requires RowsShape(rows) && LoadDay(rows, holidays, day).Ok?
    requires day * DAY <= pt < EndOf(AssembledShapeOf(rows, holidays, day))
    ensures var before, row, next := RowOf(rows, holidays, day - 1), RowOf(rows, holidays, day), RowOf(rows, holidays, day + 1);
            var table := LoadDay(rows, holidays, day).value;
            && |table.bounds| == |table.zones| + 1 && 1 <= |table.zones|
            && Defined(before) && Defined(row) && Defined(next) && MaxZone(before) != 0
            && ZoneCharges(before, row, next, day, table, ZoneAt(table, pt), pt - day * DAY)
  {
    var before, row, next := RowOf(rows, holidays, day - 1), RowOf(rows, holidays, day), RowOf(rows, holidays, day + 1);
    assert RowShape(before) && RowShape(row) && RowShape(next);
    hide RowsShape, RowOf, MaxZone, RowShape;
    ZoneOfTable(before, row, next, day, pt);
    hide AssembleDay, ZoneCharges, ZoneAt;
  }

  // The table of the day, of a shape that its bounds can be told.
  function AssembledShapeOf(rows: Rows, holidays: Holidays, day: int): (table: Day)
    requires RowsShape(rows) && LoadDay(rows, holidays, day).Ok?
    ensures |table.bounds| == |table.zones| + 1
  {
    LoadedShape(rows, holidays, day);
    LoadDay(rows, holidays, day).value
  }

  lemma ZoneOfTable(before: Row, row: Row, next: Row, day: int, pt: int)
    requires Defined(before) && MaxZone(before) != 0 && RowShape(before)
    requires Defined(row) && MaxZone(row) != 0 && RowShape(row) && Defined(next) && RowShape(next)
    requires var table := AssembleDay(before, row, next, day);
             |table.bounds| == |table.zones| + 1 && day * DAY <= pt < EndOf(table)
    ensures var table := AssembleDay(before, row, next, day);
            && |table.bounds| == |table.zones| + 1 && 1 <= |table.zones|
            && ZoneCharges(before, row, next, day, table, ZoneAt(table, pt), pt - day * DAY)
  {
    var table := AssembleDay(before, row, next, day);
    var m := MaxZone(row);
    TableParts(before, row, next, day);
    hide MaxZone, RowShape, AssembleDay;
    var k := ZoneAt(table, pt);
    hide ZoneAt;
    assert table.zones[1] == row.zones[0] && table.bounds[1] == day * DAY + row.zones[0].start;
    hide ZoneCharges;
    if k == 0 {
      EarlierZone(before, row, next, day, table, pt);
    } else {
      assert table.zones[k] == row.zones[k - 1];
      if k < m { assert table.zones[k + 1] == row.zones[k]; }
      LaterZone(before, row, next, day, table, k, pt);
    }
  }

  lemma EarlierZone(before: Row, row: Row, next: Row, day: int, table: Day, pt: int)
    requires Defined(before) && Defined(row) && Defined(next) && MaxZone(before) != 0
    requires 1 <= |table.zones| && |table.bounds| == |table.zones| + 1
    requires pt < table.bounds[1] == day * DAY + row.zones[0].start
    requires var last := before.zones[MaxZone(before) - 1];
             table.zones[0] == last && table.bounds[0] == (day - 1) * DAY + last.start
    ensures ZoneCharges(before, row, next, day, table, 0, pt - day * DAY)
  {
    hide MaxZone;
  }

  lemma LaterZone(before: Row, row: Row, next: Row, day: int, table: Day, k: nat, pt: int)
    requires Defined(before) && Defined(row) && Defined(next) && MaxZone(before) != 0
    requires 1 <= k <= MaxZone(row) == |table.zones| - 1 && |table.bounds| == |table.zones| + 1
    requires table.bounds[k] <= pt < table.bounds[k + 1]
    requires table.zones[k] == row.zones[k - 1] && table.bounds[k] == day * DAY + row.zones[k - 1].start
    requires if k < MaxZone(row) then table.bounds[k + 1] == day * DAY + row.zones[k].start
             else table.bounds[k + 1] == (day + 1) * DAY + if row.dayCutoff then 0 else next.zones[0].start
    requires row.zones[0].start <= row.zones[k - 1].start
    ensures ZoneCharges(before, row, next, day, table, k, pt - day * DAY)
  {
    hide MaxZone;
    assert RowZone(row, k - 1, pt - day * DAY);
  }

  // Zone 0 is the last of the day before, and zone k the row's k-th.
  lemma TableParts(before: Row, row: Row, next: Row, day: int)
    requires Defined(before) && MaxZone(before) != 0 && RowShape(before)
    requires Defined(row) && MaxZone(row) != 0 && RowShape(row) && Defined(next)
    ensures var table, m := AssembleDay(before, row, next, day), MaxZone(row);
            var last := before.zones[MaxZone(before) - 1];
            && |table.zones| == m + 1 && |table.bounds| == m + 2
            && table.zones[0] == last && table.bounds[0] == (day - 1) * DAY + last.start
            && (forall k {:trigger table.zones[k]} | 1 <= k <= m :: table.zones[k] == row.zones[k - 1]
                                                             && table.bounds[k] == day * DAY + row.zones[k - 1].start)
            && table.bounds[m + 1] == (day + 1) * DAY + (if row.dayCutoff then 0 else next.zones[0].start)
    ensures forall j, k :: 0 <= j < k < MaxZone(row) ==> row.zones[j].start < row.zones[k].start
  {
    var table, m := AssembleDay(before, row, next, day), MaxZone(row);
    hide MaxZone;
    forall k {:trigger table.zones[k]} | 1 <= k <= m
      ensures table.zones[k] == row.zones[k - 1] && table.bounds[k] == day * DAY + row.zones[k - 1].start
    {
      assert table.bounds[k] == Starts(row, day, m)[k - 1];
    }
  }
}
