/**
 The fee as the source computes it: the arrays of the current day's zones, filled in place, and an object that holds the
 variables of the walk from entry to pay time, with the nested loops over days, zones and charge blocks. Every method is
 tied to the specification of FeeEngine.
 */
module FeeLoop {
  import opened Tariff
  import opened FeeEngine

  /** The arrays and limits of the current day. maxZone is -1 until a day is stored. */
  class DayTables {
    const zone: array<Zone>
    const zoneTime: array<int>
    var maxZone: int
    var nextRateType: int
    var dayMin: nat
    var dayMax: nat
    var zoneCutoff: bool
    var blockMode: bool
    var blockFee: nat

    ghost predicate Valid()
      reads this
    {
      && zone.Length == 9 && zoneTime.Length == 10
      && -1 <= maxZone <= 8
    }

    ghost function Table(): Day
      requires Valid()
      reads this, zone, zoneTime
    {
      Day(zone[..maxZone + 1], zoneTime[..if maxZone < 0 then 0 else maxZone + 2],
          nextRateType, dayMin, dayMax, zoneCutoff, blockMode, blockFee)
    }

    constructor ()
      ensures Valid() && fresh(zone) && fresh(zoneTime)
      ensures Table() == NO_TABLE
    {
      zone, zoneTime := new Zone[9], new int[10];
      maxZone, nextRateType, dayMin, dayMax := -1, 0, 0, 0;
      zoneCutoff, blockMode, blockFee := false, false, 0;
    }

    // Zone 0 is the last zone of the day before; the rest are the zones of the day's own row.
    method FillZones(last: Zone, row: Row, day: int, m: nat)
      requires Valid() && m <= 8 && m <= |row.zones|
      modifies zone, zoneTime
      ensures zone[..m + 1] == [last] + row.zones[..m]
      ensures zoneTime[..m + 1] == [(day - 1) * DAY + last.start] + Starts(row, day, m)
    {
      zone[0], zoneTime[0] := last, (day - 1) * DAY + last.start;
      for k := 1 to m + 1
        invariant zone[..k] == [last] + row.zones[..k - 1]
        invariant zoneTime[..k] == [(day - 1) * DAY + last.start] + Starts(row, day, k - 1)
      {
        zone[k], zoneTime[k] := row.zones[k - 1], day * DAY + row.zones[k - 1].start;
        assert row.zones[..k] == row.zones[..k - 1] + [row.zones[k - 1]];
        assert Starts(row, day, k) == Starts(row, day, k - 1) + [day * DAY + row.zones[k - 1].start];
      }
    }

    /** Fills the arrays and the day's limits from the rows of the day before, the day itself and the day after. */
    method Store(before: Row, row: Row, next: Row, day: int)
      requires Valid()
      requires Defined(before) && MaxZone(before) != 0
      requires Defined(row) && 1 <= MaxZone(row) <= 8
      requires Defined(next)
      modifies this`maxZone, this`nextRateType, this`dayMin, this`dayMax, this`zoneCutoff, this`blockMode,
               this`blockFee, zone, zoneTime
      ensures Valid() && Table() == AssembleDay(before, row, next, day)
    {
      StoreZones(before, row, next, day);
      hide MaxZone, Defined, Starts, WholeUnits;
      StoreLimits(row);
      StoredTable(before, row, next, day);
      hide AssembleDay, Valid, Table;
    }

    // The arrays and limits are those of the assembled table.
    lemma StoredTable(before: Row, row: Row, next: Row, day: int)
      requires Valid() && Defined(before) && MaxZone(before) != 0 && Defined(row) && 1 <= MaxZone(row) <= 8 && Defined(next)
      requires maxZone == MaxZone(row) && nextRateType == next.zones[0].rateType
      requires zone[..maxZone + 1] == [before.zones[MaxZone(before) - 1]] + row.zones[..maxZone]
      requires zoneTime[..maxZone + 2]
            == [(day - 1) * DAY + before.zones[MaxZone(before) - 1].start] + Starts(row, day, maxZone)
               + [(day + 1) * DAY + (if row.dayCutoff then 0 else next.zones[0].start)]
      requires zoneCutoff == row.zoneCutoff && blockMode == (row.dayMin == row.dayMax && row.dayMin > 0)
      requires dayMin == (if blockMode then 0 else row.dayMin) && dayMax == if blockMode then 0 else row.dayMax
      requires blockFee == if blockMode then WholeUnits(row.dayMin) else 0
      ensures Table() == AssembleDay(before, row, next, day)
    {
      hide MaxZone, Starts, WholeUnits;
    }

    // The arrays, with the start of the next day at the end.
    method StoreZones(before: Row, row: Row, next: Row, day: int)
      requires Valid()
      requires Defined(before) && MaxZone(before) != 0
      requires Defined(row) && 1 <= MaxZone(row) <= 8
      requires Defined(next)
      modifies this`maxZone, this`nextRateType, zone, zoneTime
      ensures maxZone == MaxZone(row) && nextRateType == next.zones[0].rateType
      ensures zone[..maxZone + 1] == [before.zones[MaxZone(before) - 1]] + row.zones[..maxZone]
      ensures zoneTime[..maxZone + 2]
           == [(day - 1) * DAY + before.zones[MaxZone(before) - 1].start] + Starts(row, day, maxZone)
              + [(day + 1) * DAY + (if row.dayCutoff then 0 else next.zones[0].start)]
    {
      var last := FindMaxZone(before);
      var m := FindMaxZone(row);
      FillZones(before.zones[last - 1], row, day, m);
      hide MaxZone, Defined, Starts;
      maxZone, nextRateType := m, next.zones[0].rateType;
      zoneTime[m + 1] := (day + 1) * DAY + if row.dayCutoff then 0 else next.zones[0].start;
      assert zoneTime[..m + 2] == zoneTime[..m + 1] + [zoneTime[m + 1]];
    }

    method StoreLimits(row: Row)
      modifies this`dayMin, this`dayMax, this`zoneCutoff, this`blockMode, this`blockFee
      ensures zoneCutoff == row.zoneCutoff && blockMode == (row.dayMin == row.dayMax && row.dayMin > 0)
      ensures dayMin == (if blockMode then 0 else row.dayMin) && dayMax == if blockMode then 0 else row.dayMax
      ensures blockFee == if blockMode then WholeUnits(row.dayMin) else 0
    {
      dayMin, dayMax, zoneCutoff := row.dayMin, row.dayMax, row.zoneCutoff;
      if dayMin == dayMax && dayMin > 0 {
        blockMode, blockFee := true, WholeUnits(dayMin);
        dayMin, dayMax := 0, 0;
      } else {
        blockMode, blockFee := false, 0;
      }
    }

    lemma TableSizes()
      requires Valid() && 0 <= maxZone
      ensures |Table().zones| == maxZone + 1 && |Table().bounds| == maxZone + 2
      ensures forall k :: 0 <= k <= maxZone ==> Table().zones[k] == zone[k]
      ensures forall k :: 0 <= k <= maxZone + 1 ==> Table().bounds[k] == zoneTime[k]
    {
    }

    /** The index of the zone that contains the clock. */
    method FindZone(pt: int) returns (k: nat)
      requires Valid() && 1 <= maxZone && pt < zoneTime[maxZone + 1]
      ensures |Table().bounds| == |Table().zones| + 1 && 1 <= |Table().zones| && pt < EndOf(Table())
      ensures k <= maxZone && k == ZoneAt(Table(), pt)
    {
      TableSizes();
      k := 1;
      while zoneTime[k] <= pt
        invariant 1 <= k <= maxZone + 1
        invariant k > 1 ==> zoneTime[k - 1] <= pt
        invariant ZoneAtFrom(Table(), pt, k) == ZoneAt(Table(), pt)
        decreases maxZone + 1 - k
      {
        k := k + 1;
      }
      k := k - 1;
    }
  }

  method FindMaxZone(row: Row) returns (maxZone: nat)
    requires |row.zones| == 9
    ensures maxZone == MaxZone(row)
  {
    maxZone := 0;
    for k := 1 to 10
      invariant maxZone == 0 && MaxZoneFrom(row, k) == MaxZone(row)
    {
      if row.zones[k - 1].end == row.zones[0].start {
        maxZone := k;
        break;
      }
    }
  }

  method DefinedRow(row: Row) returns (defined: bool)
    ensures defined <==> Defined(row)
  {
    defined := |row.zones| == 9 && row.zones[0].start != EMPTY;
  }

  lemma DefinedZones(row: Row)
    requires Defined(row)
    ensures |row.zones| == 9
    ensures RowShape(row) ==> MaxZone(row) <= 8
  {
  }

  // The rows of the day before, the day itself and the day after, or the error code of the first unusable one.
  method DayRows(rows: Rows, holidays: Holidays, day: int) returns (code: int, before: Row, row: Row, next: Row)
    requires RowsShape(rows)
    requires 0 <= day
    ensures if code == 0 then
              && Defined(before) && MaxZone(before) != 0
              && Defined(row) && 1 <= MaxZone(row) <= 8
              && Defined(next)
              && LoadDay(rows, holidays, day) == Ok(AssembleDay(before, row, next, day))
            else LoadDay(rows, holidays, day) == Fault(code)
  {
    hide RowShape, SameFrame, Defined, MaxZone, DayType, AssembleDay;
    var dayType := GetDayType(holidays, day - 1);
    before := rows[dayType];
    dayType := GetDayType(holidays, day);
    row := rows[dayType];
    dayType := GetDayType(holidays, day + 1);
    next := rows[dayType];
    var defined := DefinedRow(before);
    if !defined { return -2, before, row, next; }
    DefinedZones(before);
    var last := FindMaxZone(before);
    if last == 0 { return -4, before, row, next; }
    defined := DefinedRow(row);
    if !defined { return -2, before, row, next; }
    DefinedZones(row);
    var m := FindMaxZone(row);
    if m == 0 { return -4, before, row, next; }
    defined := DefinedRow(next);
    if !defined { return -2, before, row, next; }
    code := 0;
  }

  // How a pass of the outer loop ends.
  datatype Signal = GoesOn | Breaks | WithinGrace | Fails(code: int)

  /** The walk from entry to pay time. */
  class FeeWalk {
    const rows: Rows
    const holidays: Holidays
    const params: Params
    const transType: int
    const hasPaid: (int, int) -> bool
    const entry: int
    const now: int
    const day: DayTables

    var pt: int
    var pd: int
    var gotDay: bool
    var dayFee: nat
    var charge: nat
    var blockCharges: nat
    var freed: bool
    var noGrace: bool
    var motorcycleChecked: bool
    var curMin: nat
    var curMax: nat

    ghost function C(): Context {
      ContextOf(rows, holidays, params, transType, hasPaid)
    }

    ghost function View(): State
      requires day.Valid()
      reads this, day, day.zone, day.zoneTime
    {
      State(pt, pd, gotDay, day.Table(), dayFee, charge, blockCharges,
            freed, noGrace, motorcycleChecked, curMin, curMax)
    }

    constructor (rows: Rows, holidays: Holidays, params: Params, transType: int, hasPaid: (int, int) -> bool,
                 entry: int, now: int, noGrace: bool)
      ensures fresh(day) && fresh(day.zone) && fresh(day.zoneTime) && day.Valid()
      ensures C() == ContextOf(rows, holidays, params, transType, hasPaid)
      ensures this.rows == rows && this.holidays == holidays && this.params == params
      ensures this.entry == entry && this.now == now
      ensures View() == Initial(entry, noGrace)
    {
      this.rows, this.holidays, this.params, this.transType, this.hasPaid := rows, holidays, params, transType, hasPaid;
      this.entry, this.now := entry, now;
      day := new DayTables();
      pt, pd, gotDay := entry, entry / DAY, false;
      dayFee, charge, blockCharges := 0, 0, 0;
      freed, this.noGrace, motorcycleChecked := false, noGrace, false;
      curMin, curMax := 0, 0;
    }

    /** Gets the tables of the current day; an error code leaves the walk to be abandoned. */
    method LoadTables() returns (code: int)
      requires day.Valid() && !gotDay && RowsShape(rows) && 0 <= pd
      modifies this, day, day.zone, day.zoneTime
      ensures day.Valid()
      ensures var loaded := LoadDay(rows, holidays, old(pd));
              if code == 0 then
                loaded.Ok? && View() == old(View()).(loaded := true, table := loaded.value, dayFee := 0)
              else loaded == Fault(code)
    {
      hide LoadDay, AssembleDay, RowsShape, Defined, MaxZone;
      var before, row, next;
      code, before, row, next := DayRows(rows, holidays, pd);
      if code == 0 {
        day.Store(before, row, next, pd);
        dayFee, gotDay := 0, true;
      }
    }

    // ---------- One pass ----------

    // A pass ended with this signal and left these variables.
    ghost predicate Ended(signal: Signal, o: Outcome)
      requires day.Valid()
      reads this, day, day.zone, day.zoneTime
    {
      match signal
      case GoesOn => o == Next(View())
      case Breaks => o == Stop(View())
      case WithinGrace => o == Grace
      case Fails(code) => o == Error(code)
    }

    ghost predicate OnTable()
      reads this, day
    {
      day.Valid() && 1 <= day.maxZone
    }

    /** Adds charge blocks until the zone ends, its maximum is reached, or the pay time is. */
    method ChargeBlocks(z: Zone, end: int, startFee: nat) returns (zoneFee: nat)
      requires 1 <= z.block
      modifies this`pt
      ensures (pt, zoneFee) == Blocks(z, end, now, charge > 0 || dayFee > 0, old(pt), startFee)
    {
      zoneFee := startFee;
      ghost var result := Blocks(z, end, now, charge > 0 || dayFee > 0, pt, startFee);
      while pt < end
        invariant Blocks(z, end, now, charge > 0 || dayFee > 0, pt, zoneFee) == result
        decreases end - pt
      {
        if z.allowance > 0 {
          if !((charge > 0 || dayFee > 0 || zoneFee > 0) && now - pt <= z.allowance) {
            zoneFee := zoneFee + z.rate;
          }
        } else {
          zoneFee := zoneFee + z.rate;
        }
        if z.maxFee > 0 && zoneFee >= z.maxFee {
          pt := end;
          break;
        }
        pt := pt + z.block;
        if pt >= now { break; }
      }
      assert (pt, zoneFee) == result;
    }

    // The limits of the day, if the clock has left it.
    method EndDay()
      requires day.Valid()
      modifies this`dayFee, this`charge, this`gotDay, this`pd
      ensures View() == CloseDay(old(View()))
    {
      if pt / DAY > pd {
        if day.dayMin > 0 && dayFee < day.dayMin { dayFee := day.dayMin; }
        if day.dayMax > 0 && dayFee > day.dayMax { dayFee := day.dayMax; }
        assert dayFee == Clamp(old(dayFee), day.dayMin, day.dayMax);
        hide Clamp;
        charge := charge + dayFee;
        dayFee := 0;
        gotDay := false;
        pd := pd + 1;
      }
    }

    // The limits of the zone, then of the day.
    method EndZone(startFee: nat) returns (signal: Signal)
      requires day.Valid()
      modifies this`dayFee, this`charge, this`gotDay, this`pd
      ensures Ended(signal, CloseZone(now, old(View()), startFee))
    {
      var zoneFee := startFee;
      if curMin > 0 && zoneFee < curMin { zoneFee := curMin; }
      if curMax > 0 && zoneFee > curMax { zoneFee := curMax; }
      assert zoneFee == Clamp(startFee, curMin, curMax);
      hide Clamp, CloseDay;
      dayFee := dayFee + zoneFee;
      assert View() == ChargeZone(old(View()), startFee);
      hide ChargeZone;
      EndDay();
      signal := if pt >= now then Breaks else GoesOn;
    }

    // The fields of the loaded day, as its table has them.
    lemma OnTableFacts(k: nat)
      requires OnTable() && k <= day.maxZone
      ensures var table := View().table;
              && |table.bounds| == |table.zones| + 1 && k < |table.zones|
              && table.zones[k] == day.zone[k]
              && table.bounds[k] == day.zoneTime[k] && table.bounds[k + 1] == day.zoneTime[k + 1]
              && table.zoneCutoff == day.zoneCutoff
              && NextPerEntry(table, k) ==
                 ((if k < day.maxZone then day.zone[k + 1].rateType else day.nextRateType) == 2)
    {
      day.TableSizes();
    }

    // The free blocks: up to three, each until the pay time, the end of the zone or a per-entry zone stops them.
    method FreeBlocks(z: Zone, end: int, nextPerEntry: bool) returns (free: Free)
      ensures free == FirstFree(params, z, end, now, nextPerEntry, day.zoneCutoff, pt)
    {
      var clock, zoneFee, used := pt, z.add1, false;
      if end - clock <= z.free1 {
        clock := if day.zoneCutoff then end else clock + z.free1;
        if clock >= now { return Free(clock, zoneFee, false, true); }
        if params.firstHour > 1 && !day.zoneCutoff && !(end <= clock && nextPerEntry) {
          clock, zoneFee := clock + z.free2, z.add1 + z.add2;
          if clock >= now { return Free(clock, zoneFee, false, true); }
          if params.firstHour > 2 && !(end <= clock && nextPerEntry) {
            clock, zoneFee := clock + z.free3, z.add1 + z.add2 + z.add3;
            if clock >= now { return Free(clock, zoneFee, false, true); }
          }
        }
        if params.firstHourMode == 1 { used := true; }
      } else {
        clock := clock + z.free1;
        if clock >= now { return Free(clock, zoneFee, false, true); }
        if params.firstHour > 1 {
          zoneFee := z.add1 + z.add2;
          if end - clock <= z.free2 {
            clock := if day.zoneCutoff then end else clock + z.free2;
            if clock >= now { return Free(clock, zoneFee, false, true); }
            if params.firstHour > 2 && !day.zoneCutoff && !(end <= clock && nextPerEntry) {
              clock, zoneFee := clock + z.free3, z.add1 + z.add2 + z.add3;
              if clock >= now { return Free(clock, zoneFee, false, true); }
            }
            if params.firstHourMode == 1 { used := true; }
          } else {
            clock := clock + z.free2;
            if clock >= now { return Free(clock, zoneFee, false, true); }
            if params.firstHour > 2 {
              zoneFee := z.add1 + z.add2 + z.add3;
              clock := if end - clock <= z.free3 && day.zoneCutoff then end else clock + z.free3;
              if clock >= now { return Free(clock, zoneFee, false, true); }
              if params.firstHourMode == 1 { used := true; }
            }
          }
        }
      }
      free := Free(clock, zoneFee, used, false);
    }

    // The clock and fee after the free blocks, if they apply.
    method FreeTime(k: nat) returns (free: Free)
      requires OnTable() && k <= day.maxZone
      ensures |View().table.bounds| == |View().table.zones| + 1 && k < |View().table.zones|
      ensures free == StartOfZone(params, day.zone[k], day.zoneTime[k + 1], now, NextPerEntry(View().table, k), View())
    {
      OnTableFacts(k);
      hide FirstFree, NextPerEntry;
      var z, end := day.zone[k], day.zoneTime[k + 1];
      var nextPerEntry := (if k < day.maxZone then day.zone[k + 1].rateType else day.nextRateType) == 2;
      free := Free(pt, 0, false, false);
      if z.free1 > 0 && (params.firstHourMode == 0 || (dayFee == 0 && charge == 0)) && !freed && params.firstHour > 0 {
        free := FreeBlocks(z, end, nextPerEntry);
      }
    }

    // Zone cutoff, when the clock has left the zone.
    method PullBack(k: nat)
      requires OnTable() && k <= day.maxZone
      modifies this`pt
      ensures var table := old(View()).table;
              && |table.bounds| == |table.zones| + 1 && k < |table.zones|
              && View() == old(View()).(pt := CutOff(C(), entry, now, table, k, old(pt)))
    {
      OnTableFacts(k);
      hide NextPerEntry;
      var end := day.zoneTime[k + 1];
      if day.zoneCutoff && pt > end {
        if params.hourlyToPerEntryAllowance > 0
           && (if k < day.maxZone then day.zone[k + 1].rateType else day.nextRateType) == 2 {
          if now - entry > params.hourlyToPerEntryAllowance { pt := end; }
        } else {
          pt := end;
        }
      }
    }

    method BlocksAndCutoff(k: nat, free: Free) returns (zoneFee: nat)
      requires OnTable() && k <= day.maxZone && 1 <= day.zone[k].block
      modifies this`pt, this`freed
      ensures |old(View()).table.bounds| == |old(View()).table.zones| + 1 && k < |old(View()).table.zones|
      ensures (View(), zoneFee) == ChargedBlocks(C(), entry, now, old(View()), k, free)
    {
      OnTableFacts(k);
      hide Blocks, CutOff, NextPerEntry;
      pt := free.pt;
      zoneFee := ChargeBlocks(day.zone[k], day.zoneTime[k + 1], free.fee);
      PullBack(k);
      if free.freed { freed := true; }
    }

    method ChargeZoneAfterFree(k: nat, free: Free) returns (signal: Signal)
      requires OnTable() && k <= day.maxZone && 1 <= day.zone[k].block
      modifies this`pt, this`freed, this`dayFee, this`charge, this`gotDay, this`pd
      ensures |old(View()).table.bounds| == |old(View()).table.zones| + 1 && k < |old(View()).table.zones|
      ensures Ended(signal, AfterFree(C(), entry, now, old(View()), k, free))
    {
      OnTableFacts(k);
      hide ChargedBlocks, CloseZone, NextPerEntry;
      if free.stop {
        pt := free.pt;
        dayFee := dayFee + free.fee;
        return Breaks;
      }
      var zoneFee := BlocksAndCutoff(k, free);
      signal := EndZone(zoneFee);
    }

    method HourlyZone(k: nat) returns (signal: Signal)
      requires OnTable() && k <= day.maxZone && 1 <= day.zone[k].block
      modifies this`pt, this`freed, this`dayFee, this`charge, this`gotDay, this`pd
      ensures |old(View()).table.bounds| == |old(View()).table.zones| + 1 && k < |old(View()).table.zones|
      ensures Ended(signal, Hourly(C(), entry, now, old(View()), k))
    {
      OnTableFacts(k);
      hide AfterFree, StartOfZone, NextPerEntry;
      var z := day.zone[k];
      if z.allowance > 0 {
        if (charge > 0 || dayFee > 0) && now - pt <= z.allowance { return Breaks; }
      }
      var free := FreeTime(k);
      signal := ChargeZoneAfterFree(k, free);
    }

    // The charge of entering: the rate, unless a motorcycle has paid or the stay ends within the allowance.
    method ChargeEntry(k: nat) returns (zoneFee: nat)
      requires OnTable() && k <= day.maxZone
      ensures |View().table.bounds| == |View().table.zones| + 1 && k < |View().table.zones|
      ensures zoneFee == EntryFee(C(), now, View(), k)
    {
      OnTableFacts(k);
      hide NextPerEntry;
      var z := day.zone[k];
      var rate := z.rate;
      if params.motorcyclePerDay > 0 && transType == 2 {
        if !motorcycleChecked && rate > 0 {
          if hasPaid(day.zoneTime[k], day.zoneTime[k + 1]) { rate := 0; }
        }
      }
      zoneFee := 0;
      if !(z.allowance > 0 && (charge > 0 || dayFee > 0) && now - pt <= z.allowance) {
        zoneFee := zoneFee + rate;
      }
    }

    // The clock leaves a per-entry zone.
    method LeaveEntryZone(end: int)
      requires day.Valid()
      modifies this`pt, this`motorcycleChecked
      ensures View() == LeaveEntry(C(), old(View()), end)
    {
      if params.motorcyclePerDay > 0 && transType == 2 { motorcycleChecked := true; }
      if params.perEntryAllowance > 0 && end - pt < params.perEntryAllowance {
        pt := pt + params.perEntryAllowance;
      } else {
        pt := end;
      }
    }

    method PerEntryZone(k: nat) returns (signal: Signal)
      requires OnTable() && k <= day.maxZone
      modifies this`pt, this`motorcycleChecked, this`dayFee, this`charge, this`gotDay, this`pd
      ensures |old(View()).table.bounds| == |old(View()).table.zones| + 1 && k < |old(View()).table.zones|
      ensures Ended(signal, PerEntry(C(), now, old(View()), k))
    {
      OnTableFacts(k);
      hide CloseZone, EntryFee, LeaveEntry, NextPerEntry;
      var zoneFee := ChargeEntry(k);
      LeaveEntryZone(day.zoneTime[k + 1]);
      signal := EndZone(zoneFee);
    }

    // A full 24-hour block: its fee is charged and the clock jumps a day.
    method TakeDayBlock() returns (signal: Signal)
      requires day.Valid()
      modifies this`pt, this`blockCharges, this`noGrace, this`dayFee, this`charge, this`gotDay, this`pd
      ensures var s := old(View());
              Ended(signal, CloseZone(now, s.(pt := s.pt + DAY, blockCharges := s.blockCharges + s.table.blockFee,
                                              noGrace := true), 0))
    {
      hide CloseZone;
      ghost var s := View();
      blockCharges := blockCharges + day.blockFee;
      pt := pt + DAY;
      noGrace := true;
      assert View() == s.(pt := s.pt + DAY, blockCharges := s.blockCharges + s.table.blockFee, noGrace := true);
      signal := EndZone(0);
    }

    // The grace time of the first zone, and the limits of the zone entered.
    method EnterZone(z: Zone) returns (within: bool)
      requires day.Valid()
      modifies this`noGrace, this`curMin, this`curMax
      ensures within <==> !old(noGrace) && z.grace > 0 && now - pt <= z.grace
      ensures !within ==> View() == old(View()).(noGrace := true, curMin := z.minFee, curMax := z.maxFee)
    {
      if !noGrace {
        if z.grace > 0 {
          if now - pt > z.grace { noGrace := true; } else { return true; }
        } else {
          noGrace := true;
        }
      }
      curMin, curMax := z.minFee, z.maxFee;
      within := false;
    }

    /** One pass of the outer loop over a loaded day. */
    method PassOnTable() returns (signal: Signal)
      requires OnTable() && pt < day.zoneTime[day.maxZone + 1]
      modifies this`pt, this`blockCharges, this`noGrace, this`dayFee, this`charge, this`gotDay, this`pd,
               this`freed, this`motorcycleChecked, this`curMin, this`curMax
      ensures var s := old(View());
              |s.table.bounds| == |s.table.zones| + 1 && 1 <= |s.table.zones| && s.pt < EndOf(s.table)
      ensures Ended(signal, PassLoaded(C(), entry, now, old(View())))
    {
      var k := day.FindZone(pt);
      hide CloseZone, PassZone, ZoneAt;
      if day.blockMode && now / 60 - pt / 60 >= 24 {
        signal := TakeDayBlock();
      } else {
        signal := PassThrough(k);
      }
    }

    method PassThrough(k: nat) returns (signal: Signal)
      requires OnTable() && k <= day.maxZone
      modifies this`pt, this`noGrace, this`dayFee, this`charge, this`gotDay, this`pd,
               this`freed, this`motorcycleChecked, this`curMin, this`curMax
      ensures |old(View()).table.bounds| == |old(View()).table.zones| + 1 && k < |old(View()).table.zones|
      ensures Ended(signal, PassZone(C(), entry, now, old(View()), k))
    {
      OnTableFacts(k);
      hide CloseZone, Hourly, PerEntry, ZoneAt, NextPerEntry;
      var z := day.zone[k];
      if z.rateType < 1 || z.rateType > 2 { return Fails(-3); }
      var within := EnterZone(z);
      if within { return WithinGrace; }
      if z.rateType == 1 {
        if z.block == 0 { return Fails(-3); }
        signal := HourlyZone(k);
      } else {
        signal := PerEntryZone(k);
      }
    }

    /** One pass of the outer loop. */
    method OnePass() returns (signal: Signal)
      requires day.Valid() && RowsShape(rows) && 0 <= pd && Ready(C(), View())
      modifies this, day, day.zone, day.zoneTime
      ensures day.Valid()
      ensures Ended(signal, Pass(C(), entry, now, old(View())))
    {
      ghost var start := View();
      if now / DAY < pd { return Breaks; }
      hide PassLoaded, RowsShape, LoadDay;
      if !gotDay {
        var code := LoadTables();
        if code != 0 { return Fails(code); }
      }
      EnteredTable(start);
      signal := PassOnTable();
    }

    // After the table is loaded the clock is within it.
    lemma EnteredTable(start: State)
      requires day.Valid() && Ready(C(), start)
      requires Enter(C(), start) == Ok(View())
      ensures OnTable() && pt < day.zoneTime[day.maxZone + 1]
    {
      hide LoadDay;
      var table := View().table;
      assert DayShape(table, start.pd) && pt < EndOf(table);
      assert |table.zones| == day.maxZone + 1;
      day.TableSizes();
    }

    /** The charge after the loop: the open day's fee, then the 24-hour blocks. */
    method Settle() returns (total: nat)
      requires day.Valid()
      modifies this`dayFee, this`charge
      ensures total == FinalCharge(old(View()))
    {
      if dayFee > 0 {
        if day.dayMin > 0 && dayFee < day.dayMin { dayFee := day.dayMin; }
        if day.dayMax > 0 && dayFee > day.dayMax { dayFee := day.dayMax; }
        charge := charge + dayFee;
      }
      if day.blockMode {
        if charge > day.blockFee { charge := day.blockFee; }
        charge := blockCharges + charge;
      }
      total := charge;
    }

    /** The outer loop, then the final charge. It ends for every tariff of the right shape. */
    method Walk() returns (total: Result<nat>)
      requires day.Valid() && RowsShape(rows) && 0 <= pd && Ready(C(), View())
      modifies this, day, day.zone, day.zoneTime
      ensures total == Run(C(), entry, now, old(View()))
    {
      var signal := GoesOn;
      while signal == GoesOn
        invariant day.Valid()
        invariant signal == GoesOn ==> 0 <= pd && Ready(C(), View())
        invariant match signal
                  case GoesOn => Run(C(), entry, now, View()) == Run(C(), entry, now, old(View()))
                  case Breaks => Ok(FinalCharge(View())) == Run(C(), entry, now, old(View()))
                  case WithinGrace => Ok(0) == Run(C(), entry, now, old(View()))
                  case Fails(code) => Fault(code) == Run(C(), entry, now, old(View()))
        decreases signal == GoesOn, now - pt
      {
        PassAdvances(C(), entry, now, View());
        hide Ready, Pass, FinalCharge, RowsShape;
        signal := OnePass();
      }
      hide Ready, Run, FinalCharge;
      match signal
      case Breaks =>
        var charge := Settle();
        total := Ok(charge);
      case WithinGrace => total := Ok(0);
      case Fails(code) => total := Fault(code);
    }
  }

  /** The pay minute, one more when the second of the pay time is past the second of entry: from the minute of entry it is
      the stay rounded up to whole minutes. */
  method PayMinute(entry: nat, pay: nat) returns (now: int)
    ensures 60 * (now - entry / 60) >= pay - entry > 60 * (now - entry / 60 - 1)
    ensures now == EffectiveMinute(entry, pay)
  {
    now := pay / 60;
    if entry % 60 < pay % 60 { now := now + 1; }
  }

  /** The parking fee between two times in seconds. For every tariff of the right shape the walk ends, and it ends with
      the fee or the error code of the specification. */
  method CalFeeRAM2GR(rows: Rows, holidays: Holidays, params: Params, transType: int, hasPaid: (int, int) -> bool,
                      entry: nat, pay: nat, noGrace: bool) returns (fee: Result<nat>)
    requires RowsShape(rows) && ParamsShape(params)
    ensures WellShaped(ContextOf(rows, holidays, params, transType, hasPaid))
    ensures fee == ParkingFee(ContextOf(rows, holidays, params, transType, hasPaid), entry, pay, noGrace)
  {
    ghost var c := ContextOf(rows, holidays, params, transType, hasPaid);
    ContextShape(rows, holidays, params, transType, hasPaid);
    hide WellShaped, RowsShape, ContextOf, Run, Ready, LoadDay, Initial;
    if pay / 60 < entry / 60 { return Ok(0); }
    var now := PayMinute(entry, pay);
    hide EffectiveMinute, Round;
    var walk := new FeeWalk(rows, holidays, params, transType, hasPaid, entry / 60, now, noGrace);
    InitialReady(c, entry / 60, noGrace);
    var total := walk.Walk();
    match total
    case Ok(charge) => fee := Ok(Round(charge, params.roundingMode));
    case Fault(code) => fee := Fault(code);
  }
}
