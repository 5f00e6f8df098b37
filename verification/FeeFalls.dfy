/**
 Where parking longer does cost less: for each condition under which the fee never falls, stations that meet all the others,
 whose fee falls exactly when they miss it.
 */
module FeeFalls {
  import opened Tariff
  import opened FeeEngine
  import opened ZoneCharge
  import opened SpecialDay
  import FeeMonotone
  import TariffRows

  function Cut(row: Row): Row {
    row.(zoneCutoff := true)
  }

  // ---------- Free-block money above the zone maximum ----------

  // A day of one zone among free days.
  function FreeMoneyStation(z: Zone, p: Params): Context {
    Station(Cut(OneZone(FREE)), Cut(OneZone(z)), 0, p)
  }

  // The end of the last free block with any length, from midnight.
  function FreeEnd(p: Params, z: Zone): nat {
    if p.firstHour > 2 && z.free3 > 0 then z.free1 + z.free2 + z.free3
    else if p.firstHour > 1 && z.free2 > 0 then z.free1 + z.free2
    else z.free1
  }

  predicate HasFreeTime(p: Params, z: Zone) {
    z.free1 > 0 && p.firstHour > 0 && ZoneShape(z)
  }

  // Paid then, all the money is charged; paid a minute later, charge blocks follow at the same clock.
  lemma FreeTimeEnds(p: Params, z: Zone, next: bool)
    requires HasFreeTime(p, z)
    ensures var g, money := FreeEnd(p, z), FeeMonotone.GrantedMoney(p, z);
            && 0 < g <= DAY
            && FirstFree(p, z, DAY, g, next, true, 0) == Free(g, money, false, true)
            && var later := FirstFree(p, z, DAY, g + 1, next, true, 0);
               !later.stop && later.pt == g && later.fee >= money
  {
  }

  predicate FreeMoneyDays(c: Context, z: Zone) {
    && c.tables(0).Ok? && OneZoneDay(c.tables(0).value, 0, z, Cut(OneZone(z)), 1)
    && c.tables(1).Ok? && OneZoneDay(c.tables(1).value, 1, FREE, Cut(OneZone(FREE)), 1)
  }

  lemma FreeMoneyTables(z: Zone, p: Params)
    requires z.rateType == 1 && 1 <= z.block && ZoneShape(z) && ParamsShape(p)
    ensures var c := FreeMoneyStation(z, p); WellShaped(c) && c.params == p && FreeMoneyDays(c, z)
  {
    var other, special := Cut(OneZone(FREE)), Cut(OneZone(z));
    OneZoneSimple(other, FREE);
    OneZoneSimple(special, z);
    StationDays(other, special, 0, p);
    hide Simple, WellShaped, OneZoneDay, AssembleDay, Station;
    OneZoneTable(other, special, other, 0, z);
    OneZoneTable(special, other, other, 1, FREE);
  }

  // The pass from midnight, in the only zone of the day.
  lemma FreeMoneyPass(c: Context, z: Zone, n: int, s: State) returns (entered: State)
    requires FreeMoneyDays(c, z) && z.rateType == 1 && 1 <= z.block
    requires s == Initial(0, true).(loaded := true, table := c.tables(0).value)
    ensures entered == s.(curMin := z.minFee, curMax := z.maxFee)
    ensures |s.table.zones| == 2 && |s.table.bounds| == 3 && s.pt < EndOf(s.table)
    ensures PassLoaded(c, 0, n, s) == Hourly(c, 0, n, entered, 1)
  {
    entered := s.(curMin := z.minFee, curMax := z.maxFee);
    OneZoneAt(s.table, 0, z, Cut(OneZone(z)), 1, 0);
    hide ZoneAt, Hourly;
  }

  lemma FreeMoneyCharged(c: Context, p: Params, z: Zone)
    requires WellShaped(c) && c.params == p && FreeMoneyDays(c, z) && HasFreeTime(p, z) && z.rateType == 1 && 1 <= z.block
    requires FeeMonotone.GrantedMoney(p, z) > 0
    ensures Charge(c, 0, FreeEnd(p, z), true) == Ok(FeeMonotone.GrantedMoney(p, z))
  {
    var g, t := FreeEnd(p, z), c.tables(0).value;
    var s := FirstPass(c, 0, g, t);
    hide WellShaped, Ready, DayShape;
    var entered := FreeMoneyPass(c, z, g, s);
    var zone := s.table.zones[1];
    FreeTimeEnds(p, zone, NextPerEntry(s.table, 1));
    hide FirstFree, PassLoaded, NextPerEntry;
    assert Hourly(c, 0, g, entered, 1) == Stop(entered.(dayFee := FeeMonotone.GrantedMoney(p, z), pt := g));
  }

  // A minute later the zone maximum cuts it.
  lemma FreeMoneyCut(c: Context, p: Params, z: Zone)
    requires WellShaped(c) && c.params == p && FreeMoneyDays(c, z) && HasFreeTime(p, z) && z.rateType == 1 && 1 <= z.block
    requires 0 < z.maxFee < FeeMonotone.GrantedMoney(p, z)
    ensures Charge(c, 0, FreeEnd(p, z) + 1, true) == Ok(z.maxFee)
  {
    var n, t := FreeEnd(p, z) + 1, c.tables(0).value;
    var s := FirstPass(c, 0, n, t);
    PassAdvances(c, 0, n, Initial(0, true));
    hide WellShaped, DayShape;
    var entered := FreeMoneyPass(c, z, n, s);
    var zone, next := s.table.zones[1], NextPerEntry(s.table, 1);
    FreeTimeEnds(p, zone, next);
    var free := FirstFree(p, zone, DAY, n, next, true, 0);
    assert StartOfZone(p, zone, DAY, n, next, entered) == free by { hide FirstFree; }
    hide FirstFree, PassLoaded, StartOfZone, NextPerEntry;
    var (pt, fee) := Blocks(zone, DAY, n, false, free.pt, free.fee);
    assert pt == DAY && Clamp(fee, z.minFee, z.maxFee) == z.maxFee;
    hide Blocks;
    var u := entered.(pt := DAY, freed := free.freed, charge := z.maxFee, loaded := false, pd := 1);
    assert Hourly(c, 0, n, entered, 1) == GoOn(n, u);
    hide Hourly, CutOff;
    if DAY < n {
      NextIsFree(c, z, n, u);
    }
  }

  lemma NextIsFree(c: Context, z: Zone, n: int, u: State)
    requires FreeMoneyDays(c, z) && n == DAY + 1 && Idle(c, u, 1, z.maxFee) && u.pt == DAY
    ensures Run(c, 0, n, u) == Ok(z.maxFee)
  {
    OneZoneAt(c.tables(1).value, 1, FREE, Cut(OneZone(FREE)), 1, DAY);
    hide ZoneAt, Ready;
    var v := FreePass(c, 0, n, u, 1, z.maxFee);
  }

  lemma FreeMoneyRows(z: Zone, p: Params)
    requires z.rateType == 1 && 1 <= z.block && ZoneShape(z)
    ensures Simple(Cut(OneZone(FREE))) && Simple(Cut(OneZone(z)))
    ensures TariffRows.MonotoneRows(p, OneSpecial(Cut(OneZone(FREE)), Cut(OneZone(z)))) <==> FeeMonotone.AddsWithinMax(p, z)
  {
    var other, special := Cut(OneZone(FREE)), Cut(OneZone(z));
    OneZoneSimple(other, FREE);
    OneZoneSimple(special, z);
    SpecialRows(other, special, 0);
    SpecialZones(other, special, TariffRows.WithinMax(p));
    SpecialZones(other, special, TariffRows.IsHourly);
    OneZoneOf(other, FREE, TariffRows.WithinMax(p));
    OneZoneOf(special, z, TariffRows.WithinMax(p));
    OneZoneOf(other, FREE, TariffRows.IsHourly);
    OneZoneOf(special, z, TariffRows.IsHourly);
    hide Simple, RowsChargeable, TariffRows.EveryZone, TariffRows.ZonesOf;
  }

  /** For every hourly zone and every setting of the station: a day of that zone among free days never charges less for longer
      stays exactly when the free-block money the station grants is within the zone maximum, if there is one. */
  lemma FreeMoneyExactly(z: Zone, p: Params)
    requires z.rateType == 1 && 1 <= z.block && ZoneShape(z) && ParamsShape(p) && p.roundingMode == 0
    ensures WellShaped(FreeMoneyStation(z, p))
    ensures NeverFalls(FreeMoneyStation(z, p)) <==> FeeMonotone.AddsWithinMax(p, z)
  {
    FreeMoneyRows(z, p);
    FreeMoneyTables(z, p);
    if FeeMonotone.AddsWithinMax(p, z) {
      hide Simple, WellShaped, TariffRows.MonotoneRows;
      MonotoneStation(Cut(OneZone(FREE)), Cut(OneZone(z)), 0, p);
    } else {
      hide WellShaped, FreeMoneyDays, FreeMoneyStation, Simple, TariffRows.MonotoneRows, NeverFalls;
      FreeMoneyFalls(FreeMoneyStation(z, p), z, p);
    }
  }

  lemma RichFreeTime(p: Params, z: Zone)
    requires ZoneShape(z) && !FeeMonotone.AddsWithinMax(p, z)
    ensures HasFreeTime(p, z) && 0 < z.maxFee < FeeMonotone.GrantedMoney(p, z)
  {
  }

  lemma FreeMoneyFalls(c: Context, z: Zone, p: Params)
    requires WellShaped(c) && c.params == p && p.roundingMode == 0 && FreeMoneyDays(c, z)
    requires z.rateType == 1 && 1 <= z.block && ZoneShape(z) && !FeeMonotone.AddsWithinMax(p, z)
    ensures !NeverFalls(c)
  {
    var g, money := FreeEnd(p, z), FeeMonotone.GrantedMoney(p, z);
    hide *;
    RichFreeTime(p, z);
    FreeMoneyCharged(c, p, z);
    FreeMoneyCut(c, p, z);
    FallsBetween(c, 0, g, g + 1, money, z.maxFee);
  }

  // ---------- An allowance without zone cutoff ----------

  function Dear(z: Zone): Zone {
    HourlyZone(z.maxFee + 1, 60)
  }

  // A minute of a free zone of one long block, and then a zone that charges more than the maximum of z.
  function ShortThenDear(z: Zone): Row {
    TwoZones(FREE, Dear(z), 1)
  }

  function AllowanceStation(z: Zone): Context {
    Station(ShortThenDear(z), OneZone(z), 0, PLAIN)
  }

  ghost predicate AllowanceDays(c: Context, z: Zone) {
    && c.tables(0).Ok? && OneZoneDay(c.tables(0).value, 0, z, OneZone(z), 1)
    && forall day {:trigger c.tables(day)} | 1 <= day ::
         c.tables(day).Ok? && TwoZonesDay(c.tables(day).value, day, FREE, Dear(z), 1, ShortThenDear(z), 1)
  }

  lemma AllowanceTables(z: Zone)
    requires z.rateType == 1 && 1 <= z.block && ZoneShape(z)
    ensures var c := AllowanceStation(z);
            WellShaped(c) && c.params == PLAIN && AllowanceDays(c, z) && FeeMonotone.ZonesTariff(c)
  {
    var other, special := ShortThenDear(z), OneZone(z);
    TwoZonesSimple(other, FREE, Dear(z), 1);
    OneZoneSimple(special, z);
    StationDays(other, special, 0, PLAIN);
    assert other.zones[0].rateType == special.zones[0].rateType == 1;
    hide Simple, WellShaped, Chargeable, AllowanceDays, AssembleDay, Station, OneZone, ShortThenDear;
    AllowanceTablesFor(AllowanceStation(z), z, other, special);
  }

  lemma AllowanceTablesFor(c: Context, z: Zone, other: Row, special: Row)
    requires other == ShortThenDear(z) && special == OneZone(z) && Simple(other) && Simple(special)
    requires MaxZone(other) == 2 && MaxZone(special) == 1 && other.zones[0].rateType == special.zones[0].rateType == 1
    requires forall day {:trigger c.tables(day)} ::
               c.tables(day) == Ok(AssembleDay(RowOn(other, special, 0, day - 1), RowOn(other, special, 0, day),
                                               RowOn(other, special, 0, day + 1), day))
    ensures AllowanceDays(c, z)
    ensures forall day {:trigger c.tables(day)} :: c.tables(day).Ok? && !c.tables(day).value.blockMode
  {
    assert special.zones == OneZone(z).zones;
    hide Simple, OneZoneDay, TwoZonesDay, AssembleDay, OneZone, ShortThenDear, MaxZone;
    OneZoneTable(other, special, other, 0, z);
    forall day {:trigger c.tables(day)}
      ensures c.tables(day).Ok? && !c.tables(day).value.blockMode
      ensures 1 <= day ==> TwoZonesDay(c.tables(day).value, day, FREE, Dear(z), 1, other, 1)
    {
      AllowanceTable(z, RowOn(other, special, 0, day - 1), RowOn(other, special, 0, day + 1), day, day != 0);
    }
  }

  lemma AllowanceTable(z: Zone, before: Row, next: Row, day: int, dear: bool)
    requires Simple(before) && Simple(next) && next.zones[0].rateType == 1
    requires Simple(OneZone(z)) && Simple(ShortThenDear(z)) && MaxZone(ShortThenDear(z)) == 2
    ensures var row := if dear then ShortThenDear(z) else OneZone(z);
            var t := AssembleDay(before, row, next, day);
            !t.blockMode && (dear ==> TwoZonesDay(t, day, FREE, Dear(z), 1, row, 1))
  {
    var row := if dear then ShortThenDear(z) else OneZone(z);
    assert !TariffRows.InBlockMode(row);
    hide MaxZone, AssembleDay, TwoZonesDay, Simple;
    NotInBlocks(before, row, next, day);
    if dear { TwoZonesTable(before, row, next, day, FREE, Dear(z), 1); }
  }

  lemma NotInBlocks(before: Row, row: Row, next: Row, day: int)
    requires Simple(before) && Simple(row) && Simple(next) && !TariffRows.InBlockMode(row)
    ensures !AssembleDay(before, row, next, day).blockMode
  {
    hide MaxZone;
  }

  // The blocks before the one that starts a minute before midnight; together they stay below the maximum.
  predicate FewBlocks(z: Zone, k: nat) {
    && 2 <= z.block < z.allowance && 0 < z.rate && k >= 1
    && z.rate * k < z.maxFee <= z.rate * (k + 1) && k * z.block < DAY
  }

  // Such blocks there are, where the allowance is not harmless.
  lemma EnoughBlocks(z: Zone) returns (k: nat)
    requires z.rateType == 1 && 1 <= z.block && !FeeMonotone.AllowanceHarmless(PLAIN, z, DAY)
    ensures FewBlocks(z, k)
  {
    assert 0 < z.rate < z.maxFee && 2 <= z.block < z.allowance && z.maxFee <= z.rate * CeilDiv(DAY, z.block);
    CeilDivPositive(z.maxFee, z.rate);
    k := CeilDiv(z.maxFee, z.rate) - 1;
    LeastMultiple(z.maxFee, z.rate, k);
    hide CeilDiv;
    FitsInDay(z.rate, z.maxFee, z.block, k);
  }

  lemma FitsInDay(rate: nat, max: nat, block: nat, k: nat)
    requires 1 <= block && rate * k < max <= rate * CeilDiv(DAY, block)
    ensures k * block < DAY
  {
    var most := CeilDiv(DAY, block);
    CeilDivPositive(DAY, block);
    LeastMultiple(DAY, block, most - 1);
    hide CeilDiv;
    FewerTimes(rate, k, most);
    TimesGrow(k, most - 1, block);
  }

  lemma FewerTimes(x: nat, a: nat, b: nat)
    requires x * a < x * b
    ensures a < b
  {
  }

  lemma TimesGrow(a: nat, b: nat, x: nat)
    requires a <= b
    ensures a * x <= x * b
  {
  }

  lemma LeastMultiple(a: int, b: int, k: int)
    requires 1 <= a && 1 <= b && k == CeilDiv(a, b) - 1
    ensures b * k < a <= b * (k + 1)
  {
  }

  // Paid a block after that, the last block is within the allowance: the clock leaves the day without the maximum.
  lemma {:induction false} BlocksFallShort(z: Zone, k: nat, fee: nat)
    requires 2 <= z.block < z.allowance && 0 < z.rate && fee + z.rate * k < z.maxFee && (fee > 0 || k >= 1)
    ensures var (pt, charged) := Blocks(z, DAY, DAY + z.block, false, DAY - 1 - k * z.block, fee);
            pt == DAY - 1 + z.block && charged < z.maxFee
    decreases k
  {
    var pt, n := DAY - 1 - k * z.block, DAY + z.block;
    if k == 0 {
      assert Blocks(z, DAY, n, false, pt + z.block, fee) == (pt + z.block, fee);
    } else {
      Distribute(z.rate, k - 1);
      Distribute(z.block, k - 1);
      var charged := if WithinAllowance(z, fee > 0, n, pt) then fee else fee + z.rate;
      assert pt + z.block == DAY - 1 - (k - 1) * z.block < n;
      BlocksFallShort(z, k - 1, charged);
    }
  }

  // Paid when the allowance of that block is over, every block is charged: the maximum sets the clock to midnight.
  lemma {:induction false} BlocksReachMax(z: Zone, k: nat, fee: nat)
    requires 2 <= z.block < z.allowance && 0 < z.maxFee <= fee + z.rate * (k + 1)
    ensures var (pt, charged) := Blocks(z, DAY, DAY + z.allowance, false, DAY - 1 - k * z.block, fee);
            pt == DAY && charged >= z.maxFee
    decreases k
  {
    var pt, n := DAY - 1 - k * z.block, DAY + z.allowance;
    assert 0 <= k * z.block;
    assert !WithinAllowance(z, fee > 0, n, pt);
    if fee + z.rate < z.maxFee {
      assert k >= 1;
      Distribute(z.rate, k);
      Distribute(z.block, k - 1);
      assert pt + z.block == DAY - 1 - (k - 1) * z.block < n;
      BlocksReachMax(z, k - 1, fee + z.rate);
    }
  }

  // The pass over the day of the zone, from the first of those blocks.
  lemma AllowancePass(c: Context, z: Zone, entry: nat, n: int) returns (entered: State)
    requires WellShaped(c) && c.params == PLAIN && AllowanceDays(c, z) && z.rateType == 1 && 1 <= z.block
    requires entry < DAY <= n
    ensures entered == Initial(entry, true).(loaded := true, table := c.tables(0).value, curMin := z.minFee, curMax := z.maxFee)
    ensures Idle(c, Initial(entry, true), 0, 0)
    ensures Charge(c, entry, n, true) == Run(c, entry, n, Initial(entry, true))
    ensures var (pt, fee) := Blocks(Lasting(z, 0, 0), DAY, n, false, entry, 0);
            Pass(c, entry, n, Initial(entry, true)) == CloseZone(n, entered.(pt := pt), fee)
  {
    var s := FirstPass(c, entry, n, c.tables(0).value);
    hide WellShaped, Ready, DayShape;
    entered := s.(curMin := z.minFee, curMax := z.maxFee);
    OneZoneAt(s.table, 0, z, OneZone(z), 1, entry);
    hide ZoneAt, Blocks, CloseZone;
    assert PassLoaded(c, entry, n, s) == Hourly(c, entry, n, entered, 1);
    var (pt, fee) := Blocks(Lasting(z, 0, 0), DAY, n, false, entry, 0);
    assert ChargedBlocks(c, entry, n, entered, 1, Free(entry, 0, false, false)) == (entered.(pt := pt), fee);
  }

  // The clock runs on past the free minute, into the dear zone.
  lemma RunsIntoDear(c: Context, z: Zone, entry: nat, n: int, u: State)
    requires FeeMonotone.ZonesTariff(c) && AllowanceDays(c, z)
    requires Ready(c, u) && u.pd == 1 && !u.loaded && u.noGrace && DAY + 1 <= u.pt < 2 * DAY && u.pt < n && n == DAY + z.block
    requires u.blockCharges == 0 && !u.table.blockMode && c.params == PLAIN
    ensures Run(c, entry, n, u).Ok? && Run(c, entry, n, u).value > z.maxFee
  {
    var t := c.tables(1).value;
    TwoZonesAt(t, 1, FREE, Dear(z), 1, ShortThenDear(z), 1, u.pt);
    var s := u.(loaded := true, table := t);
    var entered := s.(curMin := 0, curMax := 0);
    PassAdvances(c, entry, n, u);
    hide ZoneAt, Ready, FeeMonotone.ZonesTariff;
    assert Pass(c, entry, n, u) == PassLoaded(c, entry, n, s) == Hourly(c, entry, n, entered, 2) by { hide Hourly; }
    var zone := t.zones[2];
    FeeMonotone.BlocksStep(zone, 2 * DAY, n, Owing(entered), u.pt, 0);
    if u.pt + 60 < n { BlocksBounds(zone, 2 * DAY, n, Owing(entered), u.pt + 60, z.maxFee + 1); }
    var (pt, fee) := Blocks(zone, 2 * DAY, n, Owing(entered), u.pt, 0);
    assert fee >= z.maxFee + 1;
    hide Blocks;
    var moved := entered.(pt := pt);
    assert Hourly(c, entry, n, entered, 2) == CloseZone(n, moved, fee);
    hide Hourly;
    DearCharged(n, moved, fee, z.maxFee + 1);
    hide CloseZone, FinalCharge;
    var o := Pass(c, entry, n, u);
    if o.Next? { FeeMonotone.RunGrows(c, entry, n, o.next); }
  }

  lemma DearCharged(n: int, s: State, fee: nat, least: nat)
    requires least <= fee && s.curMin == s.curMax == 0 && !s.table.blockMode && s.table.dayMin == s.table.dayMax == 0
    ensures var o := CloseZone(n, s, fee);
            && (o.Stop? || o.Next?) && FinalCharge(FeeMonotone.Reached(o)) >= least
            && FeeMonotone.Reached(o).noGrace == s.noGrace && FeeMonotone.Reached(o).table == s.table
            && (o.Next? ==> o.next.pt < n)
  {
  }

  lemma ShortStay(c: Context, z: Zone, k: nat, entry: nat) returns (charge: nat)
    requires FeeMonotone.ZonesTariff(c) && c.params == PLAIN && AllowanceDays(c, z) && z.rateType == 1
    requires z.block <= DAY && FewBlocks(z, k) && entry == DAY - 1 - k * z.block
    ensures Charge(c, entry, DAY + z.block, true) == Ok(charge) && charge > z.maxFee
  {
    var n := DAY + z.block;
    var entered := AllowancePass(c, z, entry, n);
    BlocksFallShort(Lasting(z, 0, 0), k, 0);
    var (pt, fee) := Blocks(Lasting(z, 0, 0), DAY, n, false, entry, 0);
    PassAdvances(c, entry, n, Initial(entry, true));
    hide Blocks, Ready, FeeMonotone.ZonesTariff, Pass;
    var u := CloseDay(ChargeZone(entered.(pt := pt), fee));
    assert u.pd == 1 && u.pt == DAY - 1 + z.block;
    RunsIntoDear(c, z, entry, n, u);
    charge := Run(c, entry, n, u).value;
  }

  lemma LongStay(c: Context, z: Zone, k: nat, entry: nat)
    requires WellShaped(c) && c.params == PLAIN && AllowanceDays(c, z) && z.rateType == 1 && FewBlocks(z, k)
    requires entry == DAY - 1 - k * z.block
    ensures Charge(c, entry, DAY + z.allowance, true) == Ok(z.maxFee)
  {
    var n := DAY + z.allowance;
    var entered := AllowancePass(c, z, entry, n);
    BlocksReachMax(Lasting(z, 0, 0), k, 0);
    var (pt, fee) := Blocks(Lasting(z, 0, 0), DAY, n, false, entry, 0);
    PassAdvances(c, entry, n, Initial(entry, true));
    hide Blocks, Pass;
    assert Clamp(fee, z.minFee, z.maxFee) == z.maxFee;
    var u := CloseDay(ChargeZone(entered.(pt := DAY), fee));
    assert Idle(c, u, 1, z.maxFee) && u.pt == DAY;
    hide WellShaped, Ready;
    FreeFromMidnight(c, z, entry, n, u);
  }

  // From midnight on, the free minute takes the clock from day to day.
  lemma FreeFromMidnight(c: Context, z: Zone, entry: int, n: int, u: State)
    requires AllowanceDays(c, z) && c.params == PLAIN && Idle(c, u, 1, z.maxFee) && u.pt == DAY < n
    ensures Run(c, entry, n, u) == Ok(z.maxFee)
  {
    forall day {:trigger FreeDay(c, entry, n, day, day * DAY)} | 1 <= day ensures FreeDay(c, entry, n, day, day * DAY) {
      var t := c.tables(day).value;
      TwoZonesAt(t, day, FREE, Dear(z), 1, ShortThenDear(z), 1, day * DAY);
      hide ZoneAt, Idle;
    }
    hide FreeDay, Ready, AllowanceDays;
    var last := (n - 1) / DAY;
    var v := WalkFree(c, entry, n, u, 1, last, z.maxFee);
    assert FreeDay(c, entry, n, last, last * DAY);
    var w := FreePass(c, entry, n, v, last, z.maxFee);
  }

  lemma AllowanceRows(z: Zone)
    requires z.rateType == 1 && 1 <= z.block && ZoneShape(z)
    ensures Simple(ShortThenDear(z)) && Simple(OneZone(z))
    ensures FeeMonotone.AllowanceHarmless(PLAIN, z, DAY) ==>
              TariffRows.MonotoneRows(PLAIN, OneSpecial(ShortThenDear(z), OneZone(z)))
  {
    var other, special := ShortThenDear(z), OneZone(z);
    TwoZonesSimple(other, FREE, Dear(z), 1);
    OneZoneSimple(special, z);
    SpecialRows(other, special, 0);
    SpecialZones(other, special, TariffRows.WithinMax(PLAIN));
    SpecialZones(other, special, TariffRows.Harmless(PLAIN));
    TwoZonesOf(other, FREE, Dear(z), 1, TariffRows.WithinMax(PLAIN));
    TwoZonesOf(other, FREE, Dear(z), 1, TariffRows.Harmless(PLAIN));
    OneZoneOf(special, z, TariffRows.WithinMax(PLAIN));
    OneZoneOf(special, z, TariffRows.Harmless(PLAIN));
    assert FeeMonotone.AllowanceHarmless(PLAIN, z, DAY) == FeeMonotone.AllowanceHarmless(PLAIN, Lasting(z, 0, 0), DAY);
    hide Simple, RowsChargeable, TariffRows.EveryZone, TariffRows.ZonesOf;
  }

  /** For every hourly zone: a day of that zone without zone cutoff and free time, before days that are dear but for the first
      minute, never charges less for longer stays exactly when its allowance is harmless. */
  lemma AllowanceExactly(z: Zone)
    requires z.rateType == 1 && 1 <= z.block && ZoneShape(z)
    ensures WellShaped(AllowanceStation(z))
    ensures NeverFalls(AllowanceStation(z)) <==> FeeMonotone.AllowanceHarmless(PLAIN, z, DAY)
  {
    AllowanceRows(z);
    AllowanceTables(z);
    if FeeMonotone.AllowanceHarmless(PLAIN, z, DAY) {
      hide Simple, WellShaped, TariffRows.MonotoneRows;
      MonotoneStation(ShortThenDear(z), OneZone(z), 0, PLAIN);
    } else {
      var k := EnoughBlocks(z);
      hide WellShaped, AllowanceDays, AllowanceStation, FeeMonotone.AllowanceHarmless, Simple, Chargeable, FewBlocks;
      AllowanceFalls(AllowanceStation(z), z, k);
    }
  }

  lemma AllowanceFalls(c: Context, z: Zone, k: nat)
    requires FeeMonotone.ZonesTariff(c) && WellShaped(c) && c.params == PLAIN && AllowanceDays(c, z)
    requires z.rateType == 1 && z.block <= DAY && FewBlocks(z, k)
    ensures !NeverFalls(c)
  {
    var entry: nat := DAY - 1 - k * z.block;
    assert entry <= DAY + z.block <= DAY + z.allowance;
    hide WellShaped, AllowanceDays, FeeMonotone.ZonesTariff, FewBlocks, Charge, NeverFalls;
    var charge := ShortStay(c, z, k, entry);
    LongStay(c, z, k, entry);
    FallsBetween(c, entry, DAY + z.block, DAY + z.allowance, charge, z.maxFee);
  }

  // ---------- The hourly-to-per-entry allowance ----------

  const ENTRY := HourlyZone(0, 60).(rateType := 2)

  // Free, hourly in one long block and then per entry; 500 at least for the whole day.
  const ENTRY_ROW := Cut(TwoZones(FREE, ENTRY, 100)).(dayMin := 500)

  // The entry from which the allowance ends 50 minutes after a midnight, and the day it ends on.
  function AllowedEntry(allowance: nat): nat {
    (50 - allowance) % DAY
  }

  function AllowedDay(allowance: nat): nat {
    (AllowedEntry(allowance) + allowance) / DAY
  }

  lemma AllowanceEnds(allowance: nat)
    ensures AllowedEntry(allowance) + allowance == AllowedDay(allowance) * DAY + 50
    ensures AllowedDay(allowance) == 0 ==> AllowedEntry(allowance) <= 50
    ensures AllowedEntry(allowance) < DAY
  {
  }

  function Allowing(allowance: nat): Params {
    PLAIN.(hourlyToPerEntryAllowance := allowance)
  }

  function EntryStation(allowance: nat): Context {
    Station(Cut(OneZone(FREE)), ENTRY_ROW, AllowedDay(allowance), Allowing(allowance))
  }

  ghost predicate EntryDays(c: Context, last: int) {
    && c.tables(last).Ok? && TwoZonesDay(c.tables(last).value, last, FREE, ENTRY, 100, ENTRY_ROW, 1)
    && forall day {:trigger c.tables(day)} | day < last ::
         c.tables(day).Ok? && OneZoneDay(c.tables(day).value, day, FREE, Cut(OneZone(FREE)), 1)
  }

  lemma EntryTables(allowance: nat)
    ensures var c := EntryStation(allowance);
            WellShaped(c) && c.params == Allowing(allowance) && EntryDays(c, AllowedDay(allowance))
  {
    var other := Cut(OneZone(FREE));
    OneZoneSimple(other, FREE);
    TwoZonesSimple(ENTRY_ROW, FREE, ENTRY, 100);
    StationDays(other, ENTRY_ROW, AllowedDay(allowance), Allowing(allowance));
    FirstZone(FREE, other);
    hide Simple, WellShaped, EntryDays, AssembleDay, Station, AllowedDay, ENTRY_ROW;
    EntryTablesFor(EntryStation(allowance), other, AllowedDay(allowance));
  }

  lemma EntryTablesFor(c: Context, other: Row, last: int)
    requires Simple(other) && MaxZone(other) == 1 && other == Cut(OneZone(FREE)) && other.zones[0].rateType == 1
    requires Simple(ENTRY_ROW) && MaxZone(ENTRY_ROW) == 2
    requires forall day {:trigger c.tables(day)} ::
               c.tables(day) == Ok(AssembleDay(RowOn(other, ENTRY_ROW, last, day - 1), RowOn(other, ENTRY_ROW, last, day),
                                               RowOn(other, ENTRY_ROW, last, day + 1), day))
    ensures EntryDays(c, last)
  {
    assert ENTRY_ROW.zones == TwoZones(FREE, ENTRY, 100).zones && ENTRY_ROW.zones[0].rateType == 1;
    hide Simple, OneZoneDay, TwoZonesDay, AssembleDay, OneZone, TwoZones, ENTRY_ROW, MaxZone, FREE;
    TwoZonesTable(other, ENTRY_ROW, other, last, FREE, ENTRY, 100);
    forall day {:trigger c.tables(day)} | day < last
      ensures c.tables(day).Ok? && OneZoneDay(c.tables(day).value, day, FREE, other, 1)
    {
      OneZoneTable(other, other, RowOn(other, ENTRY_ROW, last, day + 1), day, FREE);
    }
  }

  // The days before the last are free from any minute on.
  lemma EntryFree(c: Context, entry: int, n: int, last: int, day: int, pt: int)
    requires EntryDays(c, last) && day < last && day * DAY <= pt < (day + 1) * DAY
    ensures FreeDay(c, entry, n, day, pt)
  {
    OneZoneAt(c.tables(day).value, day, FREE, Cut(OneZone(FREE)), 1, pt);
    hide ZoneAt;
  }

  // The last day is reached with nothing charged.
  lemma ReachLastDay(c: Context, entry: nat, n: int, last: nat) returns (u: State)
    requires WellShaped(c) && EntryDays(c, last) && entry < n && entry < DAY && last * DAY + 50 <= n
    requires last == 0 ==> entry < 50
    ensures Idle(c, u, last, 0) && u.pt < last * DAY + 50 && Charge(c, entry, n, true) == Run(c, entry, n, u)
  {
    var s := FirstPass(c, entry, n, c.tables(0).value);
    u := Initial(entry, true);
    hide WellShaped, Ready, DayShape, PassLoaded;
    if last > 0 {
      EntryFree(c, entry, n, last, 0, entry);
      assert DAY <= last * DAY;
      forall day {:trigger FreeDay(c, entry, n, day, day * DAY)} | 1 <= day < last
        ensures FreeDay(c, entry, n, day, day * DAY)
      {
        EntryFree(c, entry, n, last, day, day * DAY);
      }
      hide FreeDay, EntryDays, FinalCharge;
      u := FreePass(c, entry, n, u, 0, 0);
      u := WalkFree(c, entry, n, u, 1, last, 0);
    }
  }

  // Within the allowance the long block runs over midnight and closes the day at its minimum.
  lemma LastDayWithin(c: Context, entry: int, n: int, last: int, u: State)
    requires EntryDays(c, last) && Idle(c, u, last, 0) && u.pt < n == last * DAY + 50
    requires 0 < n - entry <= c.params.hourlyToPerEntryAllowance
    ensures Run(c, entry, n, u) == Ok(500)
  {
    var t := c.tables(last).value;
    TwoZonesAt(t, last, FREE, ENTRY, 100, ENTRY_ROW, 1, u.pt);
    var s := u.(loaded := true, table := t);
    var entered := s.(curMin := 0, curMax := 0);
    FreeBlock(t.zones[1], t.bounds[2], n, Owing(u), u.pt);
    PassAdvances(c, entry, n, u);
    hide Ready, ZoneAt, Blocks;
    assert NextPerEntry(t, 1);
    var closed := entered.(pt := u.pt + DAY, charge := 500, loaded := false, pd := last + 1);
    assert Hourly(c, entry, n, entered, 1) == Stop(closed);
    hide Hourly;
    assert Pass(c, entry, n, u) == PassLoaded(c, entry, n, s);
  }

  // A minute later zone cutoff takes the clock back to the end of the zone.
  lemma LastDayPast(c: Context, entry: int, n: int, last: int, u: State)
    requires EntryDays(c, last) && Idle(c, u, last, 0) && u.pt < n == last * DAY + 51
    requires n - entry > c.params.hourlyToPerEntryAllowance
    ensures Run(c, entry, n, u) == Ok(0)
  {
    var t := c.tables(last).value;
    TwoZonesAt(t, last, FREE, ENTRY, 100, ENTRY_ROW, 1, u.pt);
    var s := u.(loaded := true, table := t);
    var entered := s.(curMin := 0, curMax := 0);
    FreeBlock(t.zones[1], t.bounds[2], n, Owing(u), u.pt);
    PassAdvances(c, entry, n, u);
    hide Ready, ZoneAt, Blocks;
    var closed := entered.(pt := last * DAY + 100);
    assert Hourly(c, entry, n, entered, 1) == Stop(closed);
    hide Hourly;
    assert Pass(c, entry, n, u) == PassLoaded(c, entry, n, s);
  }

  lemma EntryRows(allowance: nat)
    ensures Simple(Cut(OneZone(FREE))) && Simple(ENTRY_ROW)
    ensures var rows := OneSpecial(Cut(OneZone(FREE)), ENTRY_ROW);
            && TariffRows.AllCutoff(rows) && TariffRows.EveryZone(rows, TariffRows.WithinMax(Allowing(allowance)))
            && (allowance == 0 ==> TariffRows.MonotoneRows(Allowing(allowance), rows))
  {
    var other := Cut(OneZone(FREE));
    OneZoneSimple(other, FREE);
    TwoZonesSimple(ENTRY_ROW, FREE, ENTRY, 100);
    SpecialRows(other, ENTRY_ROW, 0);
    SpecialZones(other, ENTRY_ROW, TariffRows.WithinMax(Allowing(allowance)));
    OneZoneOf(other, FREE, TariffRows.WithinMax(Allowing(allowance)));
    TwoZonesOf(ENTRY_ROW, FREE, ENTRY, 100, TariffRows.WithinMax(Allowing(allowance)));
    hide Simple, RowsChargeable, TariffRows.EveryZone, TariffRows.ZonesOf;
  }

  /** For every hourly-to-per-entry allowance: a station with zone cutoff, one day of which is first hourly and then per entry,
      never charges less for longer stays exactly when there is no allowance. */
  lemma EntryAllowanceExactly(allowance: nat)
    ensures WellShaped(EntryStation(allowance)) && (NeverFalls(EntryStation(allowance)) <==> allowance == 0)
  {
    EntryRows(allowance);
    EntryTables(allowance);
    AllowanceEnds(allowance);
    if allowance == 0 {
      hide Simple, WellShaped, TariffRows.MonotoneRows;
      MonotoneStation(Cut(OneZone(FREE)), ENTRY_ROW, AllowedDay(allowance), Allowing(allowance));
    } else {
      hide WellShaped, EntryDays, EntryStation, Simple, TariffRows.EveryZone, TariffRows.MonotoneRows;
      EntryAllowanceFalls(EntryStation(allowance), allowance, AllowedEntry(allowance), AllowedDay(allowance));
    }
  }

  lemma EntryAllowanceFalls(c: Context, allowance: nat, entry: nat, last: nat)
    requires WellShaped(c) && c.params == Allowing(allowance) && EntryDays(c, last) && allowance > 0
    requires entry + allowance == last * DAY + 50 && entry < DAY && (last == 0 ==> entry <= 50)
    ensures !NeverFalls(c)
  {
    hide WellShaped, EntryDays, NeverFalls;
    EntryWithin(c, allowance, entry, last);
    EntryPast(c, allowance, entry, last);
    hide Charge;
    FallsBetween(c, entry, entry + allowance, entry + allowance + 1, 500, 0);
  }

  lemma EntryWithin(c: Context, allowance: nat, entry: nat, last: nat)
    requires WellShaped(c) && c.params == Allowing(allowance) && EntryDays(c, last) && allowance > 0
    requires entry + allowance == last * DAY + 50 && entry < DAY
    ensures Charge(c, entry, entry + allowance, true) == Ok(500)
  {
    hide WellShaped, EntryDays, Ready, Charge, Run;
    var u := ReachLastDay(c, entry, entry + allowance, last);
    LastDayWithin(c, entry, entry + allowance, last, u);
  }

  lemma EntryPast(c: Context, allowance: nat, entry: nat, last: nat)
    requires WellShaped(c) && c.params == Allowing(allowance) && EntryDays(c, last) && allowance > 0
    requires entry + allowance == last * DAY + 50 && entry < DAY
    ensures Charge(c, entry, entry + allowance + 1, true) == Ok(0)
  {
    hide WellShaped, EntryDays, Ready, Charge, Run;
    var u := ReachLastDay(c, entry, entry + allowance + 1, last);
    LastDayPast(c, entry, entry + allowance + 1, last, u);
  }

  // ---------- Days in 24-hour mode beside others ----------

  function InBlocks(row: Row, amount: nat): Row {
    row.(dayMin := amount, dayMax := amount)
  }

  // Every day has the same zone.
  ghost predicate SameZone(c: Context, z: Zone, other: Row, special: Row, holiday: int) {
    forall day {:trigger c.tables(day)} ::
      c.tables(day).Ok? && OneZoneDay(c.tables(day).value, day, z, RowOn(other, special, holiday, day), z.rateType)
  }

  lemma SameZoneTables(z: Zone, other: Row, special: Row, holiday: int, p: Params)
    requires ZoneShape(z) && ZoneChargeable(z) && ParamsShape(p)
    requires other.zones == special.zones == OneZone(z).zones && !other.dayCutoff && !special.dayCutoff
    ensures var c := Station(other, special, holiday, p);
            WellShaped(c) && c.params == p && SameZone(c, z, other, special, holiday)
  {
    OneZoneSimple(other, z);
    OneZoneSimple(special, z);
    StationDays(other, special, holiday, p);
    var c := Station(other, special, holiday, p);
    hide Simple, WellShaped, OneZoneDay, AssembleDay, Station, Chargeable, OneZone;
    forall day {:trigger c.tables(day)}
      ensures c.tables(day).Ok? && OneZoneDay(c.tables(day).value, day, z, RowOn(other, special, holiday, day), z.rateType)
    {
      var next := RowOn(other, special, holiday, day + 1);
      assert next.zones[0].rateType == z.rateType by { FirstZone(z, next); }
      OneZoneTable(RowOn(other, special, holiday, day - 1), RowOn(other, special, holiday, day), next, day, z);
    }
  }

  lemma FirstZone(z: Zone, row: Row)
    requires row.zones == OneZone(z).zones
    ensures row.zones[0].rateType == z.rateType
  {
  }

  // Nothing of the zone itself makes the fee fall.
  lemma SameZoneRows(rate: nat, other: Row, special: Row)
    requires other.zones == special.zones == OneZone(HourlyZone(rate, DAY)).zones && !other.dayCutoff && !special.dayCutoff
    ensures var rows := OneSpecial(other, special); RowsChargeable(rows) && TariffRows.MonotoneZones(PLAIN, rows)
  {
    var z := HourlyZone(rate, DAY);
    OneZoneSimple(other, z);
    OneZoneSimple(special, z);
    SpecialRows(other, special, 0);
    SpecialZones(other, special, TariffRows.WithinMax(PLAIN));
    SpecialZones(other, special, TariffRows.Harmless(PLAIN));
    OneZoneOf(other, z, TariffRows.WithinMax(PLAIN));
    OneZoneOf(special, z, TariffRows.WithinMax(PLAIN));
    OneZoneOf(other, z, TariffRows.Harmless(PLAIN));
    OneZoneOf(special, z, TariffRows.Harmless(PLAIN));
    hide Simple, RowsChargeable, TariffRows.EveryZone, TariffRows.ZonesOf;
  }

  // One pass of a day of a single hourly block of a day, without limits.
  lemma DayPass(c: Context, z: Zone, other: Row, special: Row, holiday: int, entry: int, n: int, s: State)
    requires SameZone(c, z, other, special, holiday) && z == HourlyZone(z.rate, DAY)
    requires Idle(c, s, s.pd, s.charge) && s.pt < n && c.params == PLAIN
    requires var row := RowOn(other, special, holiday, s.pd);
             && row.dayMin == row.dayMax && (row.zoneCutoff || s.pt == s.pd * DAY)
             && (TariffRows.InBlockMode(row) ==> n / 60 - s.pt / 60 < 24)
    ensures var t := c.tables(s.pd).value;
            Pass(c, entry, n, s)
            == GoOn(n, s.(pt := (s.pd + 1) * DAY, pd := s.pd + 1, table := t, charge := s.charge + z.rate,
                          curMin := 0, curMax := 0))
  {
    var row, t := RowOn(other, special, holiday, s.pd), c.tables(s.pd).value;
    OneZoneAt(t, s.pd, z, row, z.rateType, s.pt);
    var loaded := s.(loaded := true, table := t);
    var entered := loaded.(curMin := 0, curMax := 0);
    OneBlock(t.zones[1], t.bounds[2], n, Owing(s), s.pt);
    hide Ready, ZoneAt, Blocks;
    assert PassLoaded(c, entry, n, loaded) == Hourly(c, entry, n, entered, 1) by { hide Hourly; }
    var u := entered.(pt := (s.pd + 1) * DAY, pd := s.pd + 1, charge := s.charge + z.rate, loaded := false);
    assert Hourly(c, entry, n, entered, 1) == GoOn(n, u);
    hide Hourly;
  }

  lemma OneBlock(z: Zone, end: int, n: int, owing: bool, pt: int)
    requires z.block == DAY && z.allowance == 0 && z.maxFee == 0 && pt < end <= pt + DAY
    ensures Blocks(z, end, n, owing, pt, 0) == (pt + DAY, z.rate)
  {
    assert Blocks(z, end, n, owing, pt + DAY, z.rate) == (pt + DAY, z.rate);
  }

  // A zone of more than the 24-hour fee a day, and one day of it in 24-hour mode.
  function OverFee(amount: nat): Zone {
    HourlyZone(WholeUnits(amount) + 1, DAY)
  }

  function MixedStation(amount: nat): Context {
    Station(OneZone(OverFee(amount)), InBlocks(OneZone(OverFee(amount)), amount), 1, PLAIN)
  }

  lemma MixedCharges(c: Context, amount: nat)
    requires amount > 0 && WellShaped(c) && c.params == PLAIN
    requires SameZone(c, OverFee(amount), OneZone(OverFee(amount)), InBlocks(OneZone(OverFee(amount)), amount), 1)
    ensures Charge(c, 0, DAY, true) == Ok(WholeUnits(amount) + 1) && Charge(c, 0, DAY + 1, true) == Ok(WholeUnits(amount))
  {
    var z, w := OverFee(amount), WholeUnits(amount);
    var other, special := OneZone(z), InBlocks(OneZone(z), amount);
    var first, next := c.tables(0).value, c.tables(1).value;
    var s := FirstPass(c, 0, DAY, first);
    s := FirstPass(c, 0, DAY + 1, first);
    var s0, n := Initial(0, true), DAY + 1;
    assert LimitsOf(first, other) && LimitsOf(next, special);
    DayPass(c, z, other, special, 1, 0, DAY, s0);
    DayPass(c, z, other, special, 1, 0, n, s0);
    PassAdvances(c, 0, n, s0);
    var u := s0.(pt := DAY, pd := 1, table := first, charge := w + 1);
    var v := u.(pt := 2 * DAY, pd := 2, table := next, charge := 2 * w + 2);
    assert Pass(c, 0, DAY, s0) == Stop(u) && Pass(c, 0, n, s0) == Next(u);
    assert Idle(c, u, 1, w + 1);
    DayPass(c, z, other, special, 1, 0, n, u);
    assert Pass(c, 0, n, u) == Stop(v);
    hide WellShaped, Ready, DayShape, SameZone, Pass, PassLoaded, WholeUnits;
    assert FinalCharge(u) == w + 1 && FinalCharge(v) == w;
  }

  /** For every 24-hour amount: a station with a day of that amount among days that charge by the zones alone does charge less
      for some longer stay. The 24-hour fee of the last day caps what the days before it have charged. */
  lemma MixedDaysFall(amount: nat)
    requires amount > 0
    ensures var row := OneZone(OverFee(amount));
            var rows := OneSpecial(row, InBlocks(row, amount));
            && RowsChargeable(rows) && TariffRows.MonotoneZones(PLAIN, rows)
            && TariffRows.InBlockMode(rows[8]) && !TariffRows.InBlockMode(rows[1])
    ensures WellShaped(MixedStation(amount)) && !NeverFalls(MixedStation(amount))
  {
    var z := OverFee(amount);
    SameZoneRows(z.rate, OneZone(z), InBlocks(OneZone(z), amount));
    hide RowsChargeable, TariffRows.MonotoneZones;
    SameZoneTables(z, OneZone(z), InBlocks(OneZone(z), amount), 1, PLAIN);
    hide WellShaped, SameZone, NeverFalls, Station;
    MixedFalls(MixedStation(amount), amount);
  }

  lemma MixedFalls(c: Context, amount: nat)
    requires amount > 0 && WellShaped(c) && c.params == PLAIN
    requires SameZone(c, OverFee(amount), OneZone(OverFee(amount)), InBlocks(OneZone(OverFee(amount)), amount), 1)
    ensures !NeverFalls(c)
  {
    hide WellShaped, SameZone, Charge, NeverFalls, WholeUnits;
    MixedCharges(c, amount);
    FallsBetween(c, 0, DAY, DAY + 1, WholeUnits(amount) + 1, WholeUnits(amount));
  }

  // A day in 24-hour mode before days that charge a rate for a block of a day.
  function DroppedStation(amount: nat, rate: nat): Context {
    Station(OneZone(HourlyZone(rate, DAY)), InBlocks(OneZone(HourlyZone(rate, DAY)), amount), 0, PLAIN)
  }

  // A full block of a 24-hour day.
  lemma BlockPass(c: Context, z: Zone, other: Row, special: Row, holiday: int, entry: nat, n: int)
    requires WellShaped(c) && SameZone(c, z, other, special, holiday) && 24 <= n / 60 - entry / 60 && entry < DAY
    requires TariffRows.InBlockMode(RowOn(other, special, holiday, 0))
    ensures var t := c.tables(0).value;
            && Ready(c, Initial(entry, true))
            && Pass(c, entry, n, Initial(entry, true))
            == GoOn(n, Initial(entry, true).(pt := entry + DAY, pd := 1, table := t, blockCharges := t.blockFee))
  {
    var s := FirstPass(c, entry, n, c.tables(0).value);
    hide WellShaped, Ready, DayShape;
  }

  lemma DroppedCharges(c: Context, amount: nat, rate: nat)
    requires amount > 0 && WellShaped(c) && c.params == PLAIN
    requires SameZone(c, HourlyZone(rate, DAY), OneZone(HourlyZone(rate, DAY)),
                      InBlocks(OneZone(HourlyZone(rate, DAY)), amount), 0)
    ensures Charge(c, 0, DAY, true) == Ok(WholeUnits(amount)) && Charge(c, 0, DAY + 1, true) == Ok(rate)
  {
    var z := HourlyZone(rate, DAY);
    var other, special := OneZone(z), InBlocks(OneZone(z), amount);
    var first, next := c.tables(0).value, c.tables(1).value;
    var s := FirstPass(c, 0, DAY, first);
    s := FirstPass(c, 0, DAY + 1, first);
    var s0, n := Initial(0, true), DAY + 1;
    assert LimitsOf(first, special) && LimitsOf(next, other);
    BlockPass(c, z, other, special, 0, 0, DAY);
    BlockPass(c, z, other, special, 0, 0, n);
    PassAdvances(c, 0, n, s0);
    var u := s0.(pt := DAY, pd := 1, table := first, blockCharges := first.blockFee);
    assert Pass(c, 0, DAY, s0) == Stop(u) && Pass(c, 0, n, s0) == Next(u);
    OneZoneAt(next, 1, z, other, 1, DAY);
    OneBlock(next.zones[1], next.bounds[2], n, false, DAY);
    var loaded := u.(loaded := true, table := next);
    var entered := loaded.(curMin := 0, curMax := 0);
    hide WellShaped, Ready, DayShape, SameZone, ZoneAt, Blocks;
    assert Pass(c, 0, n, u) == PassLoaded(c, 0, n, loaded) == Hourly(c, 0, n, entered, 1) by { hide Hourly; }
    hide Pass, PassLoaded;
    var v := entered.(pt := 2 * DAY, pd := 2, charge := rate, loaded := false);
    assert Hourly(c, 0, n, entered, 1) == Stop(v);
    hide Hourly, WholeUnits;
    assert Ready(c, u) && Pass(c, 0, n, u) == Stop(v);
    assert FinalCharge(u) == WholeUnits(amount) && FinalCharge(v) == rate;
  }

  /** And the other way round the 24-hour charges are dropped: for every amount and every rate of the days after, a stay of 24
      hours costs the 24-hour fee, and a minute more costs the rate instead. */
  lemma BlockChargesDropped(amount: nat, rate: nat)
    requires amount > 0
    ensures var c := DroppedStation(amount, rate);
            && WellShaped(c)
            && ParkingFee(c, 0, 86400, true) == Ok(WholeUnits(amount)) && ParkingFee(c, 0, 86460, true) == Ok(rate)
  {
    var z := HourlyZone(rate, DAY);
    SameZoneTables(z, OneZone(z), InBlocks(OneZone(z), amount), 0, PLAIN);
    var c := DroppedStation(amount, rate);
    hide WellShaped, SameZone, Charge, WholeUnits, DroppedStation;
    DroppedCharges(c, amount, rate);
    WholeMinutes(c, 0, DAY, WholeUnits(amount));
    WholeMinutes(c, 0, DAY + 1, rate);
  }

  // ---------- 24-hour days of different fees ----------

  // A zone that charges the greater fee for a block of a day.
  function GreaterFee(amount: nat, special: nat): Zone {
    HourlyZone(if amount <= special then WholeUnits(special) else WholeUnits(amount), DAY)
  }

  // All days in 24-hour mode, one of another fee: today if it is the smaller one, or tomorrow.
  function FeesStation(amount: nat, special: nat): Context {
    var row := Cut(OneZone(GreaterFee(amount, special)));
    Station(InBlocks(row, amount), InBlocks(row, special), if amount <= special then 1 else 0, PLAIN)
  }

  lemma FeesCharges(c: Context, other: Row, special: Row, holiday: int, today: nat, tomorrow: nat)
    requires WellShaped(c) && c.params == PLAIN
    requires SameZone(c, HourlyZone(WholeUnits(tomorrow), DAY), other, special, holiday)
    requires var row := RowOn(other, special, holiday, 0); row.dayMin == row.dayMax == today > 0 && row.zoneCutoff
    requires var row := RowOn(other, special, holiday, 1); row.dayMin == row.dayMax == tomorrow > 0 && row.zoneCutoff
    ensures Charge(c, 720, 2159, true) == Ok(WholeUnits(tomorrow)) && Charge(c, 720, 2160, true) == Ok(WholeUnits(today))
  {
    var z, g := HourlyZone(WholeUnits(tomorrow), DAY), WholeUnits(tomorrow);
    var first, next := c.tables(0).value, c.tables(1).value;
    var s := FirstPass(c, 720, 2159, first);
    s := FirstPass(c, 720, 2160, first);
    var s0 := Initial(720, true);
    assert LimitsOf(first, RowOn(other, special, holiday, 0)) && LimitsOf(next, RowOn(other, special, holiday, 1));
    BlockPass(c, z, other, special, holiday, 720, 2160);
    DayPass(c, z, other, special, holiday, 720, 2159, s0);
    PassAdvances(c, 720, 2159, s0);
    var block := s0.(pt := 2160, pd := 1, table := first, blockCharges := first.blockFee);
    var u := s0.(pt := DAY, pd := 1, table := first, charge := g);
    var v := u.(pt := 2 * DAY, pd := 2, table := next, charge := 2 * g);
    assert Pass(c, 720, 2160, s0) == Stop(block) && Pass(c, 720, 2159, s0) == Next(u);
    assert Idle(c, u, 1, g);
    DayPass(c, z, other, special, holiday, 720, 2159, u);
    assert Pass(c, 720, 2159, u) == Stop(v);
    hide WellShaped, Ready, DayShape, SameZone, Pass, PassLoaded, WholeUnits;
    assert FinalCharge(block) == WholeUnits(today) && FinalCharge(v) == g;
  }

  lemma WholeUnitsGrow(x: nat, y: nat)
    requires x <= y
    ensures WholeUnits(x) <= WholeUnits(y)
  {
  }

  /** For any two amounts that differ in whole units: a station whose days are all in 24-hour mode, one of them of the other
      amount, does charge less for some longer stay, paid at the fee of the day of entry once 24 hours are full. */
  lemma DifferentFeesFall(amount: nat, special: nat)
    requires amount > 0 && special > 0 && WholeUnits(amount) != WholeUnits(special)
    ensures var row := Cut(OneZone(GreaterFee(amount, special)));
            var rows := OneSpecial(InBlocks(row, amount), InBlocks(row, special));
            && RowsChargeable(rows) && TariffRows.MonotoneZones(PLAIN, rows)
            && TariffRows.InBlockMode(rows[8]) && TariffRows.InBlockMode(rows[1])
    ensures WellShaped(FeesStation(amount, special)) && !NeverFalls(FeesStation(amount, special))
  {
    var c, z := FeesStation(amount, special), GreaterFee(amount, special);
    var row, holiday := Cut(OneZone(z)), if amount <= special then 1 else 0;
    var today, tomorrow := if amount <= special then amount else special, if amount <= special then special else amount;
    SameZoneRows(z.rate, InBlocks(row, amount), InBlocks(row, special));
    hide RowsChargeable, TariffRows.MonotoneZones;
    WholeUnitsGrow(today, tomorrow);
    SameZoneTables(z, InBlocks(row, amount), InBlocks(row, special), holiday, PLAIN);
    hide WellShaped, SameZone, Charge, NeverFalls, WholeUnits, OneZone;
    FeesCharges(c, InBlocks(row, amount), InBlocks(row, special), holiday, today, tomorrow);
    FallsBetween(c, 720, 2159, 2160, WholeUnits(tomorrow), WholeUnits(today));
  }
}
