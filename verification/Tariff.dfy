/**
 The tariff as the fee engine reads it: nine zones per row, one row per day type, and the table of one
 calendar day assembled from the rows of the day before, the day itself and the day after.

 Times are whole minutes of local time counted from 1970-01-01 00:00, days are those minutes divided by 1440.
 Money is counted in hundredths of the unit the tariff is written in.
 */
module Tariff {
  import Calendar

  const DAY := 1440

  // An empty time cell of a tariff row.
  const EMPTY := -1

  datatype Zone = Zone(
    start: int, end: int,  // minute of the day, or EMPTY
    rateType: int, rate: nat, block: nat, grace: nat, minFee: nat, maxFee: nat,
    free1: nat, add1: nat, free2: nat, add2: nat, free3: nat, add3: nat, allowance: nat)

  datatype Row = Row(zones: seq<Zone>, dayMax: nat, dayMin: nat, zoneCutoff: bool, dayCutoff: bool)

  datatype Holidays = Holidays(days: seq<int>, hasEve: bool)

  datatype Params = Params(
    firstHour: int, firstHourMode: int, perEntryAllowance: nat, hourlyToPerEntryAllowance: nat,
    motorcyclePerDay: int, roundingMode: int)

  // The ten slots of one transaction type; day types use slots 1 to 8.
  type Rows = rows: seq<Row> | |rows| == 10 witness seq(10, i => Row([], 0, 0, false, false))

  datatype Result<T> = Ok(value: T) | Fault(code: int)

  // ---------- Day types ----------

  function Weekday(day: int): (weekday: int)
    ensures 1 <= weekday <= 7
  {
    (day + 2440588) % 7 + 1  // Julian day number of 1970-01-01
  }

  function DayType(holidays: Holidays, day: int): (dayType: int)
    ensures 1 <= dayType <= 8
  {
    if holidays.hasEve then
      if day in holidays.days then 7
      else if Weekday(day) < 6 && day + 1 in holidays.days then 8
      else Weekday(day)
    else
      if day in holidays.days then 8 else Weekday(day)
  }

  method GetDayType(holidays: Holidays, day: int) returns (dayType: int)
    requires Calendar.FIRST_DAY_NUMBER <= day + 2440588
    ensures dayType == DayType(holidays, day)
  {
    var date := Calendar.DateOfDayNumber(day + 2440588);
    Calendar.DayNumberRoundTrip(day + 2440588);
    dayType := Calendar.WeekdayOf(date);
    if holidays.hasEve {
      if dayType != 6 && dayType != 7 {
        for i := 0 to |holidays.days|
          invariant day + 1 !in holidays.days[..i]
          invariant dayType == Weekday(day)
        {
          if day + 1 == holidays.days[i] {
            dayType := 8;
            break;
          }
        }
      }
    }
    for i := 0 to |holidays.days|
      invariant day !in holidays.days[..i]
    {
      if day == holidays.days[i] {
        dayType := if holidays.hasEve then 7 else 8;
        return;
      }
    }
  }

  // ---------- One row ----------

  predicate Defined(row: Row) {
    |row.zones| == 9 && row.zones[0].start != EMPTY
  }

  // The first of the nine zones, counted from 1, that ends where the row starts; 0 if none does.
  function MaxZoneFrom(row: Row, k: nat): (zone: nat)
    requires |row.zones| == 9 && 1 <= k <= 10
    ensures zone != 0 ==> k <= zone <= 9 && row.zones[zone - 1].end == row.zones[0].start
    ensures forall j :: k - 1 <= j < (if zone == 0 then 9 else zone - 1) ==> row.zones[j].end != row.zones[0].start
    decreases 10 - k
  {
    if k == 10 then 0
    else if row.zones[k - 1].end == row.zones[0].start then k
    else MaxZoneFrom(row, k + 1)
  }

  function MaxZone(row: Row): (zone: nat)
    requires |row.zones| == 9
    ensures zone != 0 ==> zone <= 9 && row.zones[zone - 1].end == row.zones[0].start
  {
    MaxZoneFrom(row, 1)
  }

  // ---------- One day ----------

  /** The table of one day: zone 0 is the last zone of the day before; zone k starts at bounds[k] and ends at
      bounds[k + 1]. nextRateType is the rate type of the next day's first zone. */
  datatype Day = Day(
    zones: seq<Zone>, bounds: seq<int>, nextRateType: int,
    dayMin: nat, dayMax: nat, zoneCutoff: bool, blockMode: bool, blockFee: nat)

  function RowOf(rows: Rows, holidays: Holidays, day: int): Row {
    rows[DayType(holidays, day)]
  }

  function Starts(row: Row, day: int, n: nat): (bounds: seq<int>)
    requires n <= |row.zones|
    ensures |bounds| == n
    ensures forall k :: 0 <= k < n ==> bounds[k] == day * DAY + row.zones[k].start
  {
    seq(n, k requires 0 <= k < n => day * DAY + row.zones[k].start)
  }

  // The integer variable that holds the 24-hour fee drops its fraction.
  function WholeUnits(amount: nat): (whole: nat)
    ensures whole % 100 == 0 && whole <= amount < whole + 100
  {
    amount / 100 * 100
  }

  function AssembleDay(before: Row, row: Row, next: Row, day: int): (table: Day)
    requires Defined(before) && MaxZone(before) != 0
    requires Defined(row) && MaxZone(row) != 0
    requires Defined(next)
  {
    var last, m := MaxZone(before), MaxZone(row);
    var blockMode := row.dayMin == row.dayMax && row.dayMin > 0;
    Day([before.zones[last - 1]] + row.zones[..m],
        [(day - 1) * DAY + before.zones[last - 1].start] + Starts(row, day, m)
        + [(day + 1) * DAY + (if row.dayCutoff then 0 else next.zones[0].start)],
        next.zones[0].rateType,
        if blockMode then 0 else row.dayMin, if blockMode then 0 else row.dayMax, row.zoneCutoff,
        blockMode, if blockMode then WholeUnits(row.dayMin) else 0)
  }

  function LoadDay(rows: Rows, holidays: Holidays, day: int): Result<Day> {
    var before, row, next :=
      RowOf(rows, holidays, day - 1), RowOf(rows, holidays, day), RowOf(rows, holidays, day + 1);
    if !Defined(before) then Fault(-2)
    else if MaxZone(before) == 0 then Fault(-4)
    else if !Defined(row) then Fault(-2)
    else if MaxZone(row) == 0 then Fault(-4)
    else if !Defined(next) then Fault(-2)
    else Ok(AssembleDay(before, row, next, day))
  }

  /** Everything a fee depends on besides the entry and pay times: the table of every day, the station parameters, the
      transaction type, and the answers of the database lookup for a payment between two times. */
  datatype Context = Context(
    tables: int -> Result<Day>, params: Params, transType: int, hasPaid: (int, int) -> bool)

  function ContextOf(rows: Rows, holidays: Holidays, params: Params, transType: int,
                     hasPaid: (int, int) -> bool): Context
  {
    Context(day => LoadDay(rows, holidays, day), params, transType, hasPaid)
  }

  // ---------- Shape of a tariff ----------

  predicate ZoneShape(zone: Zone) {
    zone.block <= DAY && zone.free1 + zone.free2 + zone.free3 <= DAY
  }

  // At most eight zones: with nine the source's arrays are one entry short.
  predicate RowShape(row: Row) {
    && |row.zones| == 9
    && (Defined(row) ==>
          && MaxZone(row) <= 8
          && 0 <= row.zones[0].start < DAY
          && (forall k :: 0 <= k < MaxZone(row) ==> 0 <= row.zones[k].start < DAY && ZoneShape(row.zones[k]))
          && (forall j, k :: 0 <= j < k < MaxZone(row) ==> row.zones[j].start < row.zones[k].start))
  }

  predicate SameFrame(row: Row, other: Row) {
    Defined(row) && Defined(other) ==>
      row.zones[0].start == other.zones[0].start && row.dayCutoff == other.dayCutoff
  }

  /** What the source silently relies on. Rows may still be empty, may fail to close, and may hold unknown rate
      types or zero charge blocks: those end in its error codes. */
  predicate RowsShape(rows: Rows) {
    && (forall i :: 1 <= i <= 8 ==> RowShape(rows[i]))
    && (forall i, j :: 1 <= i <= 8 && 1 <= j <= 8 ==> SameFrame(rows[i], rows[j]))
  }

  predicate ParamsShape(params: Params) {
    params.perEntryAllowance <= DAY && 0 <= params.roundingMode <= 3
  }

  predicate ZoneChargeable(zone: Zone) {
    zone.rateType == 2 || (zone.rateType == 1 && 1 <= zone.block)
  }

  predicate RowChargeable(row: Row) {
    && Defined(row)
    && MaxZone(row) != 0
    && forall k :: 0 <= k < MaxZone(row) ==> ZoneChargeable(row.zones[k])
  }

  // No day leads to an error code.
  predicate RowsChargeable(rows: Rows) {
    RowsShape(rows) && forall i :: 1 <= i <= 8 ==> RowChargeable(rows[i])
  }

  // ---------- Shape of the tables ----------

  function EndOf(table: Day): int
    requires |table.bounds| == |table.zones| + 1
  {
    table.bounds[|table.zones|]
  }

  /** What every pass may use of a loaded day. */
  predicate DayShape(table: Day, day: int) {
    && 2 <= |table.zones| <= 9
    && |table.bounds| == |table.zones| + 1
    && table.bounds[0] < day * DAY <= table.bounds[1]
    && (forall j, k :: 1 <= j < k < |table.bounds| ==> table.bounds[j] < table.bounds[k])
    && (day + 1) * DAY <= table.bounds[|table.zones|] < (day + 2) * DAY
    && (forall k :: 0 <= k < |table.zones| ==> ZoneShape(table.zones[k]))
    && (table.blockMode ==> table.dayMin == 0 && table.dayMax == 0)
  }

  lemma AssembledShape(before: Row, row: Row, next: Row, day: int)
    requires Defined(before) && MaxZone(before) != 0 && RowShape(before)
    requires Defined(row) && MaxZone(row) != 0 && RowShape(row)
    requires Defined(next) && RowShape(next)
    ensures DayShape(AssembleDay(before, row, next, day), day)
  {
    var table := AssembleDay(before, row, next, day);
    var last, m := MaxZone(before), MaxZone(row);
    hide MaxZone;
    assert |table.bounds| == m + 2 && |table.zones| == m + 1;
    forall k | 1 <= k <= m ensures table.bounds[k] == day * DAY + row.zones[k - 1].start {
      assert table.bounds[k] == Starts(row, day, m)[k - 1];
    }
    forall k | 0 <= k < |table.zones| ensures ZoneShape(table.zones[k]) {
      assert table.zones[k] == if k == 0 then before.zones[last - 1] else row.zones[k - 1];
    }
  }

  ghost predicate TableShape(tables: int -> Result<Day>, day: int) {
    tables(day).Ok? ==> DayShape(tables(day).value, day)
  }

  // Every day's table ends at the same minute of the following day.
  ghost predicate SameEnd(tables: int -> Result<Day>, day: int, other: int)
    requires TableShape(tables, day) && TableShape(tables, other)
  {
    tables(day).Ok? && tables(other).Ok? ==>
      EndOf(tables(day).value) - day * DAY == EndOf(tables(other).value) - other * DAY
  }

  ghost predicate WellShaped(c: Context) {
    && ParamsShape(c.params)
    && (forall day :: TableShape(c.tables, day))
    && (forall day, other :: SameEnd(c.tables, day, other))
  }

  ghost predicate Chargeable(c: Context) {
    && WellShaped(c)
    && forall day {:trigger c.tables(day)} ::
         c.tables(day).Ok? && forall z :: z in c.tables(day).value.zones ==> ZoneChargeable(z)
  }

  lemma LoadedShape(rows: Rows, holidays: Holidays, day: int)
    requires RowsShape(rows)
    requires LoadDay(rows, holidays, day).Ok?
    ensures DayShape(LoadDay(rows, holidays, day).value, day)
  {
    hide DayShape;
    AssembledShape(RowOf(rows, holidays, day - 1), RowOf(rows, holidays, day), RowOf(rows, holidays, day + 1), day);
  }

  lemma TablesShape(rows: Rows, holidays: Holidays, tables: int -> Result<Day>)
    requires RowsShape(rows)
    requires forall day :: tables(day) == LoadDay(rows, holidays, day)
    ensures forall day :: TableShape(tables, day)
    ensures forall day, other :: SameEnd(tables, day, other)
  {
    forall day ensures TableShape(tables, day) {
      hide DayShape, LoadDay, RowsShape;
      assert tables(day) == LoadDay(rows, holidays, day);
      if tables(day).Ok? { LoadedShape(rows, holidays, day); }
    }
    forall day, other ensures SameEnd(tables, day, other) {
      hide DayShape;
      assert tables(day) == LoadDay(rows, holidays, day) && tables(other) == LoadDay(rows, holidays, other);
      assert SameFrame(RowOf(rows, holidays, day), RowOf(rows, holidays, other));
      assert SameFrame(RowOf(rows, holidays, day + 1), RowOf(rows, holidays, other + 1));
    }
  }

  lemma LoadedChargeable(rows: Rows, holidays: Holidays, day: int)
    requires RowsChargeable(rows)
    ensures LoadDay(rows, holidays, day).Ok?
    ensures forall z :: z in LoadDay(rows, holidays, day).value.zones ==> ZoneChargeable(z)
  {
    hide RowsShape, MaxZone;
    var before, row := RowOf(rows, holidays, day - 1), RowOf(rows, holidays, day);
    assert RowChargeable(before) && RowChargeable(row) && RowChargeable(RowOf(rows, holidays, day + 1));
    assert forall z :: z in row.zones[..MaxZone(row)] ==> ZoneChargeable(z);
  }

  /** A tariff of the right shape gives the engine tables of the right shape, for every list of holidays. */
  lemma ContextShape(rows: Rows, holidays: Holidays, params: Params, transType: int, hasPaid: (int, int) -> bool)
    requires RowsShape(rows) && ParamsShape(params)
    ensures WellShaped(ContextOf(rows, holidays, params, transType, hasPaid))
    ensures ContextOf(rows, holidays, params, transType, hasPaid).params == params
    ensures RowsChargeable(rows) ==> Chargeable(ContextOf(rows, holidays, params, transType, hasPaid))
  {
    hide DayShape, RowsShape, LoadDay, RowsChargeable;
    var c := ContextOf(rows, holidays, params, transType, hasPaid);
    TablesShape(rows, holidays, c.tables);
    if RowsChargeable(rows) {
      forall day ensures c.tables(day).Ok? && forall z :: z in c.tables(day).value.zones ==> ZoneChargeable(z) {
        LoadedChargeable(rows, holidays, day);
      }
    }
  }
}
