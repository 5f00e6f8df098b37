/**
 The kinds of tariff the fee properties speak of, told from the ten rows as they are configured: what a station has to
 check once, for every list of holidays.
 */
module TariffRows {
  import opened Tariff
  import opened FeeEngine
  import FeeMonotone
  import FeeDayCap
  import FeeDayBlocks
  import FeeDayBlocksMonotone

  predicate InBlockMode(row: Row) {
    row.dayMin == row.dayMax && row.dayMin > 0
  }

  predicate ZonesOf(row: Row, good: Zone -> bool) {
    |row.zones| == 9 && forall k :: 0 <= k < MaxZone(row) ==> good(row.zones[k])
  }

  // Of all eight rows.
  predicate EveryZone(rows: Rows, good: Zone -> bool) {
    forall i :: 1 <= i <= 8 ==> ZonesOf(rows[i], good)
  }

  function WithinMax(p: Params): Zone -> bool {
    z => FeeMonotone.AddsWithinMax(p, z)
  }

  // Whatever zone of a day it is.
  function Harmless(p: Params): Zone -> bool {
    z => FeeMonotone.AllowanceHarmless(p, z, DAY)
  }

  predicate IsHourly(z: Zone) {
    z.rateType == 1
  }

  predicate NoCutoff(rows: Rows) {
    forall i :: 1 <= i <= 8 ==> !rows[i].zoneCutoff
  }

  predicate AllCutoff(rows: Rows) {
    forall i :: 1 <= i <= 8 ==> rows[i].zoneCutoff
  }

  /** Free-block money within any zone maximum; zone cutoff on every row, or harmless allowances; and no
      hourly-to-per-entry allowance, unless no row has zone cutoff or no zone is per entry. */
  predicate MonotoneZones(p: Params, rows: Rows) {
    && EveryZone(rows, WithinMax(p))
    && (AllCutoff(rows) || EveryZone(rows, Harmless(p)))
    && (p.hourlyToPerEntryAllowance == 0 || NoCutoff(rows) || EveryZone(rows, IsHourly))
  }

  predicate NoBlockMode(rows: Rows) {
    forall i :: 1 <= i <= 8 ==> !InBlockMode(rows[i])
  }

  /** Such zones, and no 24-hour row. */
  predicate MonotoneRows(p: Params, rows: Rows) {
    RowsChargeable(rows) && NoBlockMode(rows) && MonotoneZones(p, rows)
  }

  predicate CappedRows(rows: Rows) {
    RowsShape(rows) && forall i :: 1 <= i <= 8 ==> rows[i].dayMax > 0 && !InBlockMode(rows[i])
  }

  predicate DayBlockRows(rows: Rows, fee: nat) {
    RowsChargeable(rows) && forall i :: 1 <= i <= 8 ==> InBlockMode(rows[i]) && rows[i].dayMin == fee
  }

  // The table of a day is assembled from its row and the last zone of the row of the day before.
  lemma LoadedFromRows(rows: Rows, holidays: Holidays, day: int)
    requires LoadDay(rows, holidays, day).Ok?
    ensures Defined(RowOf(rows, holidays, day + 1))
    ensures var table, row := LoadDay(rows, holidays, day).value, RowOf(rows, holidays, day);
            && table.blockMode == InBlockMode(row)
            && table.zoneCutoff == row.zoneCutoff && table.nextRateType == RowOf(rows, holidays, day + 1).zones[0].rateType
            && table.dayMin == (if InBlockMode(row) then 0 else row.dayMin)
            && table.dayMax == (if InBlockMode(row) then 0 else row.dayMax)
            && table.blockFee == (if InBlockMode(row) then WholeUnits(row.dayMin) else 0)
  {
    hide MaxZone;
  }

  lemma LoadedZones(rows: Rows, holidays: Holidays, day: int, good: Zone -> bool)
    requires LoadDay(rows, holidays, day).Ok? && EveryZone(rows, good)
    ensures forall z :: z in LoadDay(rows, holidays, day).value.zones ==> good(z)
  {
    var before, row := RowOf(rows, holidays, day - 1), RowOf(rows, holidays, day);
    hide MaxZone;
    assert ZonesOf(before, good) && ZonesOf(row, good);
    assert forall z :: z in row.zones[..MaxZone(row)] ==> good(z);
  }

  // The zones of a day are at most a day long.
  predicate WithinDay(table: Day) {
    && |table.bounds| == |table.zones| + 1
    && forall k {:trigger table.zones[k]} | 0 <= k < |table.zones| :: table.bounds[k + 1] - table.bounds[k] <= DAY
  }

  lemma ZoneLengths(rows: Rows, holidays: Holidays, day: int)
    requires RowsShape(rows) && LoadDay(rows, holidays, day).Ok?
    ensures WithinDay(LoadDay(rows, holidays, day).value)
  {
    var before, row, next := RowOf(rows, holidays, day - 1), RowOf(rows, holidays, day), RowOf(rows, holidays, day + 1);
    assert RowShape(before) && RowShape(row) && RowShape(next) && SameFrame(before, row) && SameFrame(row, next);
    hide RowsShape, RowOf, MaxZone, RowShape, WithinDay, SameFrame;
    AssembledLengths(before, row, next, day);
    hide AssembleDay;
  }

  // The zones of a row start from its first start on, within the day.
  lemma RowStarts(row: Row)
    requires Defined(row) && MaxZone(row) != 0 && RowShape(row)
    ensures forall k {:trigger row.zones[k]} :: 0 <= k < MaxZone(row) ==> row.zones[0].start <= row.zones[k].start < DAY
  {
    hide MaxZone;
  }

  // Where the zones of a day begin, and where the last one ends.
  lemma AssembledBounds(before: Row, row: Row, next: Row, day: int)
    requires Defined(before) && MaxZone(before) != 0 && Defined(row) && MaxZone(row) != 0 && Defined(next)
    ensures var table, m := AssembleDay(before, row, next, day), MaxZone(row);
            && |table.zones| == m + 1 && |table.bounds| == m + 2
            && table.bounds[0] == (day - 1) * DAY + before.zones[MaxZone(before) - 1].start
            && (forall k {:trigger table.bounds[k]} :: 1 <= k <= m ==> table.bounds[k] == day * DAY + row.zones[k - 1].start)
            && table.bounds[m + 1] == (day + 1) * DAY + if row.dayCutoff then 0 else next.zones[0].start
  {
    var table, m := AssembleDay(before, row, next, day), MaxZone(row);
    hide MaxZone, Defined, WholeUnits;
    forall k | 1 <= k <= m ensures table.bounds[k] == day * DAY + row.zones[k - 1].start {
      assert table.bounds[k] == Starts(row, day, m)[k - 1];
    }
  }

  lemma AssembledLengths(before: Row, row: Row, next: Row, day: int)
    requires Defined(before) && MaxZone(before) != 0 && RowShape(before)
    requires Defined(row) && MaxZone(row) != 0 && RowShape(row)
    requires Defined(next) && RowShape(next) && SameFrame(before, row) && SameFrame(row, next)
    ensures WithinDay(AssembleDay(before, row, next, day))
  {
    RowStarts(before);
    RowStarts(row);
    assert row.zones[0].start >= 0;
    AssembledBounds(before, row, next, day);
    hide MaxZone, RowShape, AssembleDay;
  }

  lemma HarmlessShorter(p: Params, z: Zone, length: int)
    requires length <= DAY && FeeMonotone.AllowanceHarmless(p, z, DAY)
    ensures FeeMonotone.AllowanceHarmless(p, z, length)
  {
    if z.rateType == 1 && 1 <= z.block && 1 <= length {
      FeeMonotone.CeilDivGrows(length, DAY, z.block, z.rate);
    }
  }

  lemma TableHarmless(p: Params, table: Day)
    requires WithinDay(table) && forall z :: z in table.zones ==> FeeMonotone.AllowanceHarmless(p, z, DAY)
    ensures FeeMonotone.AllowancesHarmless(p, table)
  {
    hide FeeMonotone.AllowanceHarmless;
    forall k {:trigger table.zones[k]} | 0 <= k < |table.zones|
      ensures FeeMonotone.AllowanceHarmless(p, table.zones[k], table.bounds[k + 1] - table.bounds[k])
    {
      assert table.zones[k] in table.zones;
      HarmlessShorter(p, table.zones[k], table.bounds[k + 1] - table.bounds[k]);
    }
  }

  lemma LoadedHarmless(p: Params, rows: Rows, holidays: Holidays, day: int)
    requires RowsShape(rows) && LoadDay(rows, holidays, day).Ok? && EveryZone(rows, Harmless(p))
    ensures FeeMonotone.AllowancesHarmless(p, LoadDay(rows, holidays, day).value)
  {
    hide LoadDay, RowsShape, EveryZone, WithinDay, FeeMonotone.AllowanceHarmless, FeeMonotone.AllowancesHarmless;
    LoadedZones(rows, holidays, day, Harmless(p));
    ZoneLengths(rows, holidays, day);
    TableHarmless(p, LoadDay(rows, holidays, day).value);
  }

  // The rate type of the next day's first zone is an hourly one, too.
  lemma LoadedHourly(rows: Rows, holidays: Holidays, day: int)
    requires RowsChargeable(rows) && LoadDay(rows, holidays, day).Ok? && EveryZone(rows, IsHourly)
    ensures FeeMonotone.NoEntryAfterHourly(LoadDay(rows, holidays, day).value)
  {
    var table := LoadDay(rows, holidays, day).value;
    LoadedZones(rows, holidays, day, IsHourly);
    var next := RowOf(rows, holidays, day + 1);
    assert RowChargeable(next) && ZonesOf(next, IsHourly) && table.nextRateType == next.zones[0].rateType;
    hide LoadDay, RowsChargeable, RowOf, MaxZone, EveryZone;
    assert next.zones[0].rateType == 1;
  }

  // The zones of a day, whatever its mode.
  lemma LoadedMonotone(p: Params, rows: Rows, holidays: Holidays, day: int)
    requires RowsChargeable(rows) && MonotoneZones(p, rows)
    ensures LoadDay(rows, holidays, day).Ok?
    ensures FeeMonotone.MonotoneTable(p, FeeDayBlocks.ZonesOnly(LoadDay(rows, holidays, day).value))
    ensures forall z :: z in LoadDay(rows, holidays, day).value.zones ==> ZoneChargeable(z)
  {
    hide LoadDay, RowsChargeable, EveryZone;
    assert RowsShape(rows) by { ChargeableShape(rows); }
    LoadedChargeable(rows, holidays, day);
    LoadedFromRows(rows, holidays, day);
    LoadedZones(rows, holidays, day, WithinMax(p));
    if EveryZone(rows, Harmless(p)) { LoadedHarmless(p, rows, holidays, day); }
    if EveryZone(rows, IsHourly) { LoadedHourly(rows, holidays, day); }
    ZonesOnlyTable(p, LoadDay(rows, holidays, day).value);
    assert RowOf(rows, holidays, day) in rows[1..9];
    hide RowsShape, FeeMonotone.AddsWithinMax, FeeMonotone.AllowancesHarmless, FeeMonotone.NoEntryAfterHourly;
  }

  lemma ChargeableShape(rows: Rows)
    requires RowsChargeable(rows)
    ensures RowsShape(rows)
  {
  }

  // The conditions on the zones of a table do not depend on its mode.
  lemma ZonesOnlyTable(p: Params, table: Day)
    ensures var only := FeeDayBlocks.ZonesOnly(table);
            && FeeMonotone.AllowancesHarmless(p, only) == FeeMonotone.AllowancesHarmless(p, table)
            && FeeMonotone.NoEntryAfterHourly(only) == FeeMonotone.NoEntryAfterHourly(table)
  {
    hide FeeMonotone.AllowanceHarmless;
    assert forall k :: 0 <= k < |table.zones| ==>
             NextPerEntry(FeeDayBlocks.ZonesOnly(table), k) == NextPerEntry(table, k);
  }

  lemma RowsMonotone(rows: Rows, holidays: Holidays, params: Params, transType: int, hasPaid: (int, int) -> bool)
    requires MonotoneRows(params, rows) && ParamsShape(params)
    ensures FeeMonotone.MonotoneTariff(ContextOf(rows, holidays, params, transType, hasPaid))
  {
    var c := ContextOf(rows, holidays, params, transType, hasPaid);
    ContextShape(rows, holidays, params, transType, hasPaid);
    forall day {:trigger c.tables(day)}
      ensures !c.tables(day).value.blockMode && FeeMonotone.MonotoneTable(params, c.tables(day).value)
    {
      MonotoneRowsTable(params, rows, holidays, day);
      hide *;
    }
    hide Chargeable, LoadDay, FeeMonotone.MonotoneTable;
  }

  lemma MonotoneRowsTable(p: Params, rows: Rows, holidays: Holidays, day: int)
    requires MonotoneRows(p, rows)
    ensures LoadDay(rows, holidays, day).Ok? && FeeMonotone.MonotoneTable(p, LoadDay(rows, holidays, day).value)
    ensures !LoadDay(rows, holidays, day).value.blockMode
  {
    LoadedMonotone(p, rows, holidays, day);
    LoadedFromRows(rows, holidays, day);
    ZonesOnlyTable(p, LoadDay(rows, holidays, day).value);
    hide LoadDay, RowsChargeable, MonotoneZones, FeeMonotone.AddsWithinMax;
    hide FeeMonotone.AllowancesHarmless, FeeMonotone.NoEntryAfterHourly;
  }

  /** What the station promises its customers: over rows of the right kind, staying longer never costs less. */
  lemma LongerStayOnRows(rows: Rows, holidays: Holidays, params: Params, transType: int, hasPaid: (int, int) -> bool,
                         entry: nat, pay: nat, later: nat, noGrace: bool)
    requires MonotoneRows(params, rows) && ParamsShape(params) && pay <= later
    ensures var c := ContextOf(rows, holidays, params, transType, hasPaid);
            && WellShaped(c)
            && ParkingFee(c, entry, pay, noGrace).Ok? && ParkingFee(c, entry, later, noGrace).Ok?
            && ParkingFee(c, entry, pay, noGrace).value <= ParkingFee(c, entry, later, noGrace).value
  {
    RowsMonotone(rows, holidays, params, transType, hasPaid);
    hide WellShaped, ParkingFee;
    FeeMonotone.ParkingLongerNeverCostsLess(ContextOf(rows, holidays, params, transType, hasPaid), entry, pay, later, noGrace);
  }

  lemma RowsCapped(rows: Rows, holidays: Holidays, params: Params, transType: int, hasPaid: (int, int) -> bool)
    requires CappedRows(rows) && ParamsShape(params)
    ensures FeeDayCap.CappedTariff(ContextOf(rows, holidays, params, transType, hasPaid))
  {
    var c := ContextOf(rows, holidays, params, transType, hasPaid);
    ContextShape(rows, holidays, params, transType, hasPaid);
    hide WellShaped, LoadDay;
    forall day {:trigger c.tables(day)} | c.tables(day).Ok?
      ensures c.tables(day).value.dayMax > 0 && !c.tables(day).value.blockMode
    {
      LoadedFromRows(rows, holidays, day);
    }
  }

  /** The 24-hour fee that is charged has lost any fraction of a unit: the rows' fee rounded down. */
  lemma RowsInBlocks(rows: Rows, holidays: Holidays, params: Params, transType: int, hasPaid: (int, int) -> bool, fee: nat)
    requires DayBlockRows(rows, fee) && ParamsShape(params)
    ensures FeeDayBlocks.DayBlockTariff(ContextOf(rows, holidays, params, transType, hasPaid), WholeUnits(fee))
  {
    var c := ContextOf(rows, holidays, params, transType, hasPaid);
    ContextShape(rows, holidays, params, transType, hasPaid);
    hide WellShaped, LoadDay;
    forall day {:trigger c.tables(day)}
      ensures c.tables(day).Ok? && c.tables(day).value.blockMode && c.tables(day).value.blockFee == WholeUnits(fee)
    {
      LoadedChargeable(rows, holidays, day);
      LoadedFromRows(rows, holidays, day);
    }
  }

  /** The monotone fee of 24-hour rows. */
  lemma LongerStayInBlocks(rows: Rows, holidays: Holidays, params: Params, transType: int, hasPaid: (int, int) -> bool,
                           fee: nat, entry: nat, pay: nat, later: nat, noGrace: bool)
    requires DayBlockRows(rows, fee) && MonotoneZones(params, rows) && ParamsShape(params) && pay <= later
    ensures var c := ContextOf(rows, holidays, params, transType, hasPaid);
            && WellShaped(c)
            && ParkingFee(c, entry, pay, noGrace).Ok? && ParkingFee(c, entry, later, noGrace).Ok?
            && ParkingFee(c, entry, pay, noGrace).value <= ParkingFee(c, entry, later, noGrace).value
  {
    var c := ContextOf(rows, holidays, params, transType, hasPaid);
    RowsInBlocks(rows, holidays, params, transType, hasPaid, fee);
    BlockRowsMonotone(rows, holidays, params, transType, hasPaid);
    hide WellShaped, ParkingFee, ContextOf;
    FeeDayBlocksMonotone.ParkingLongerInBlocks(c, entry, pay, later, WholeUnits(fee), noGrace);
  }

  // What the zones-only table of a day is.
  predicate GoodDay(p: Params, table: Result<Day>) {
    && table.Ok? && FeeMonotone.MonotoneTable(p, table.value) && !table.value.blockMode
    && forall z :: z in table.value.zones ==> ZoneChargeable(z)
  }

  lemma BlockRowsDay(rows: Rows, holidays: Holidays, c: Context, day: int)
    requires RowsChargeable(rows) && MonotoneZones(c.params, rows) && c.tables(day) == LoadDay(rows, holidays, day)
    ensures GoodDay(c.params, FeeDayBlocks.ZonesOnlyTariff(c).tables(day))
  {
    LoadedMonotone(c.params, rows, holidays, day);
    hide LoadDay, FeeMonotone.MonotoneTable, RowsChargeable, MonotoneZones;
  }

  lemma GoodDays(z: Context)
    requires WellShaped(z) && forall day {:trigger z.tables(day)} :: GoodDay(z.params, z.tables(day))
    ensures FeeMonotone.MonotoneTariff(z)
  {
    hide WellShaped, FeeMonotone.MonotoneTable;
  }

  lemma BlockRowsMonotone(rows: Rows, holidays: Holidays, params: Params, transType: int, hasPaid: (int, int) -> bool)
    requires RowsChargeable(rows) && MonotoneZones(params, rows) && ParamsShape(params)
    ensures FeeMonotone.MonotoneTariff(
              FeeDayBlocks.ZonesOnlyTariff(ContextOf(rows, holidays, params, transType, hasPaid)))
  {
    var c := ContextOf(rows, holidays, params, transType, hasPaid);
    var z := FeeDayBlocks.ZonesOnlyTariff(c);
    ContextShape(rows, holidays, params, transType, hasPaid);
    assert z.params == params == c.params;
    forall day {:trigger z.tables(day)} ensures GoodDay(z.params, z.tables(day)) {
      assert c.tables(day) == LoadDay(rows, holidays, day);
      hide *;
      BlockRowsDay(rows, holidays, c, day);
    }
    hide *;
    FeeDayBlocks.ZonesOnlyShape(c);
    GoodDays(z);
  }
}
