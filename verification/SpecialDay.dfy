/**
 Stations whose days are alike but for one, a holiday with a row of its own; rows of one or two zones, and the walk over
 days that charge nothing.
 */
module SpecialDay {
  import opened Tariff
  import opened FeeEngine
  import opened ZoneCharge
  import FeeMonotone
  import TariffRows

  ghost predicate NeverFalls(c: Context)
    requires WellShaped(c)
  {
    forall entry: nat, pay: nat, later: nat, noGrace: bool | pay <= later ::
      && ParkingFee(c, entry, pay, noGrace).Ok? && ParkingFee(c, entry, later, noGrace).Ok?
      && ParkingFee(c, entry, pay, noGrace).value <= ParkingFee(c, entry, later, noGrace).value
  }

  // Between whole minutes.
  lemma FallsBetween(c: Context, entry: nat, n: nat, m: nat, charge: nat, later: nat)
    requires WellShaped(c) && c.params.roundingMode == 0 && entry <= n <= m && later < charge
    requires Charge(c, entry, n, true) == Ok(charge) && Charge(c, entry, m, true) == Ok(later)
    ensures !NeverFalls(c)
  {
    WholeMinutes(c, entry, n, charge);
    WholeMinutes(c, entry, m, later);
    hide WellShaped, ParkingFee, Charge;
  }

  lemma WholeMinutes(c: Context, entry: nat, n: nat, charge: nat)
    requires WellShaped(c) && c.params.roundingMode == 0 && entry <= n && Charge(c, entry, n, true) == Ok(charge)
    ensures ParkingFee(c, 60 * entry, 60 * n, true) == Ok(charge)
  {
    assert EffectiveMinute(60 * entry, 60 * n) == n;
    hide WellShaped, Charge, EffectiveMinute;
  }

  // ---------- Stations with one day of its own ----------

  const NO_ZONE := Zone(EMPTY, EMPTY, 1, 0, 60, 0, 0, 0, 0, 0, 0, 0, 0, 0, 0)

  function HourlyZone(rate: nat, block: nat): Zone {
    NO_ZONE.(rate := rate, block := block)
  }

  function Lasting(z: Zone, start: int, end: int): Zone {
    z.(start := start, end := end)
  }

  // A row of one zone, or of two that meet at a minute of the day.
  function OneZone(z: Zone): Row {
    Row([Lasting(z, 0, 0), NO_ZONE, NO_ZONE, NO_ZONE, NO_ZONE, NO_ZONE, NO_ZONE, NO_ZONE, NO_ZONE], 0, 0, false, false)
  }

  function TwoZones(z1: Zone, z2: Zone, minute: int): Row {
    Row([Lasting(z1, 0, minute), Lasting(z2, minute, 0), NO_ZONE, NO_ZONE, NO_ZONE, NO_ZONE, NO_ZONE, NO_ZONE, NO_ZONE],
        0, 0, false, false)
  }

  const PLAIN := Params(0, 0, 0, 0, 0, 0)

  function NeverPaid(start: int, end: int): bool {
    false
  }

  function OneSpecial(other: Row, special: Row): Rows {
    seq(10, i => if i == 8 then special else other)
  }

  function Station(other: Row, special: Row, holiday: int, p: Params): Context {
    ContextOf(OneSpecial(other, special), Holidays([holiday], false), p, 1, NeverPaid)
  }

  function RowOn(other: Row, special: Row, holiday: int, day: int): Row {
    if day == holiday then special else other
  }

  // A row that starts at midnight.
  predicate Simple(row: Row) {
    && Defined(row) && MaxZone(row) != 0 && RowShape(row) && RowChargeable(row)
    && row.zones[0].start == 0 && !row.dayCutoff
  }

  lemma OneZoneSimple(row: Row, z: Zone)
    requires row.zones == OneZone(z).zones && !row.dayCutoff && ZoneShape(z) && ZoneChargeable(z)
    ensures Simple(row) && MaxZone(row) == 1
  {
  }

  lemma TwoZonesSimple(row: Row, z1: Zone, z2: Zone, minute: int)
    requires row.zones == TwoZones(z1, z2, minute).zones && !row.dayCutoff && 0 < minute < DAY
    requires ZoneShape(z1) && ZoneChargeable(z1) && ZoneShape(z2) && ZoneChargeable(z2)
    ensures Simple(row) && MaxZone(row) == 2
  {
    assert MaxZoneFrom(row, 2) == 2;
  }

  lemma SpecialRows(other: Row, special: Row, holiday: int)
    requires Simple(other) && Simple(special)
    ensures RowsChargeable(OneSpecial(other, special))
    ensures forall day :: RowOf(OneSpecial(other, special), Holidays([holiday], false), day)
                       == RowOn(other, special, holiday, day)
  {
    hide MaxZone, RowShape, RowChargeable;
  }

  lemma StationDays(other: Row, special: Row, holiday: int, p: Params)
    requires Simple(other) && Simple(special) && ParamsShape(p)
    ensures WellShaped(Station(other, special, holiday, p)) && Chargeable(Station(other, special, holiday, p))
    ensures Station(other, special, holiday, p).params == p
    ensures forall day {:trigger Station(other, special, holiday, p).tables(day)} ::
              Station(other, special, holiday, p).tables(day)
              == Ok(AssembleDay(RowOn(other, special, holiday, day - 1), RowOn(other, special, holiday, day),
                                RowOn(other, special, holiday, day + 1), day))
  {
    SpecialRows(other, special, holiday);
    hide MaxZone, RowShape, RowChargeable, RowOf, AssembleDay, RowsChargeable, OneSpecial;
    ContextShape(OneSpecial(other, special), Holidays([holiday], false), p, 1, NeverPaid);
    hide WellShaped, Chargeable;
  }

  // What the day's table takes from the row besides its zones.
  predicate LimitsOf(t: Day, row: Row) {
    && t.zoneCutoff == row.zoneCutoff && t.blockMode == TariffRows.InBlockMode(row)
    && t.dayMin == (if t.blockMode then 0 else row.dayMin) && t.dayMax == (if t.blockMode then 0 else row.dayMax)
    && t.blockFee == (if t.blockMode then WholeUnits(row.dayMin) else 0)
  }

  predicate OneZoneDay(t: Day, day: int, z: Zone, row: Row, next: int) {
    && |t.zones| == 2 && |t.bounds| == 3 && t.zones[1] == Lasting(z, 0, 0) && t.nextRateType == next && LimitsOf(t, row)
    && t.bounds[0] < t.bounds[1] == day * DAY && t.bounds[2] == (day + 1) * DAY
  }

  predicate TwoZonesDay(t: Day, day: int, z1: Zone, z2: Zone, minute: int, row: Row, next: int) {
    && |t.zones| == 3 && |t.bounds| == 4 && t.nextRateType == next && LimitsOf(t, row)
    && t.zones[1] == Lasting(z1, 0, minute) && t.zones[2] == Lasting(z2, minute, 0)
    && t.bounds[0] < t.bounds[1] == day * DAY && t.bounds[2] == day * DAY + minute && t.bounds[3] == (day + 1) * DAY
  }

  lemma OneZoneTable(before: Row, row: Row, next: Row, day: int, z: Zone)
    requires Simple(before) && Simple(row) && Simple(next) && MaxZone(row) == 1 && row.zones == OneZone(z).zones
    ensures OneZoneDay(AssembleDay(before, row, next, day), day, z, row, next.zones[0].rateType)
  {
    hide MaxZone;
    assert Starts(row, day, 1) == [day * DAY];
  }

  lemma TwoZonesTable(before: Row, row: Row, next: Row, day: int, z1: Zone, z2: Zone, minute: int)
    requires Simple(before) && Simple(row) && Simple(next)
    requires MaxZone(row) == 2 && row.zones == TwoZones(z1, z2, minute).zones
    ensures TwoZonesDay(AssembleDay(before, row, next, day), day, z1, z2, minute, row, next.zones[0].rateType)
  {
    hide MaxZone;
    assert Starts(row, day, 2) == [day * DAY, day * DAY + minute];
  }

  lemma OneZoneAt(t: Day, day: int, z: Zone, row: Row, next: int, pt: int)
    requires OneZoneDay(t, day, z, row, next) && day * DAY <= pt < (day + 1) * DAY
    ensures pt < EndOf(t) && ZoneAt(t, pt) == 1
  {
    assert ZoneAtFrom(t, pt, 2) == 1;
  }

  lemma TwoZonesAt(t: Day, day: int, z1: Zone, z2: Zone, minute: int, row: Row, next: int, pt: int)
    requires TwoZonesDay(t, day, z1, z2, minute, row, next) && day * DAY <= pt < (day + 1) * DAY
    ensures pt < EndOf(t) && ZoneAt(t, pt) == if pt < day * DAY + minute then 1 else 2
  {
    assert pt >= day * DAY + minute ==> ZoneAtFrom(t, pt, 3) == 2;
    assert ZoneAtFrom(t, pt, 2) == if pt < day * DAY + minute then 1 else 2;
  }

  // The rows of such a station, for its zones.
  lemma SpecialZones(other: Row, special: Row, good: Zone -> bool)
    requires Simple(other) && Simple(special)
    ensures TariffRows.EveryZone(OneSpecial(other, special), good)
       <==> TariffRows.ZonesOf(other, good) && TariffRows.ZonesOf(special, good)
  {
    var rows := OneSpecial(other, special);
    assert rows[1] == other && rows[8] == special;
    hide TariffRows.ZonesOf;
  }

  lemma OneZoneOf(row: Row, z: Zone, good: Zone -> bool)
    requires Simple(row) && MaxZone(row) == 1 && row.zones == OneZone(z).zones
    ensures TariffRows.ZonesOf(row, good) <==> good(Lasting(z, 0, 0))
  {
    hide MaxZone;
  }

  lemma TwoZonesOf(row: Row, z1: Zone, z2: Zone, minute: int, good: Zone -> bool)
    requires Simple(row) && MaxZone(row) == 2 && row.zones == TwoZones(z1, z2, minute).zones
    ensures TariffRows.ZonesOf(row, good) <==> good(Lasting(z1, 0, minute)) && good(Lasting(z2, minute, 0))
  {
    hide MaxZone;
    assert row.zones[0] == Lasting(z1, 0, minute) && row.zones[1] == Lasting(z2, minute, 0);
  }

  lemma MonotoneStation(other: Row, special: Row, holiday: int, p: Params)
    requires Simple(other) && Simple(special) && ParamsShape(p)
    requires TariffRows.MonotoneRows(p, OneSpecial(other, special))
    ensures WellShaped(Station(other, special, holiday, p)) && NeverFalls(Station(other, special, holiday, p))
  {
    StationDays(other, special, holiday, p);
    var rows, holidays := OneSpecial(other, special), Holidays([holiday], false);
    hide *;
    var c := Station(other, special, holiday, p);
    assert c == ContextOf(rows, holidays, p, 1, NeverPaid) by { StationIs(other, special, holiday, p); }
    assert NeverFalls(c) by { NeverFallsFromRows(rows, holidays, p, c); }
  }

  lemma StationIs(other: Row, special: Row, holiday: int, p: Params)
    ensures Station(other, special, holiday, p)
         == ContextOf(OneSpecial(other, special), Holidays([holiday], false), p, 1, NeverPaid)
  {
  }

  lemma NeverFallsFromRows(rows: Rows, holidays: Holidays, p: Params, c: Context)
    requires TariffRows.MonotoneRows(p, rows) && ParamsShape(p) && c == ContextOf(rows, holidays, p, 1, NeverPaid)
    ensures WellShaped(c) && NeverFalls(c)
  {
    hide WellShaped, ParkingFee, ContextOf, TariffRows.MonotoneRows;
    TariffRows.LongerStayOnRows(rows, holidays, p, 1, NeverPaid, 0, 0, 0, true);
    forall entry: nat, pay: nat, later: nat, noGrace: bool | pay <= later
      ensures && ParkingFee(c, entry, pay, noGrace).Ok? && ParkingFee(c, entry, later, noGrace).Ok?
              && ParkingFee(c, entry, pay, noGrace).value <= ParkingFee(c, entry, later, noGrace).value
    {
      TariffRows.LongerStayOnRows(rows, holidays, p, 1, NeverPaid, entry, pay, later, noGrace);
    }
  }

  // ---------- Days that charge nothing ----------

  const FREE := HourlyZone(0, DAY)

  // Nothing but a charge of earlier days, at the top of a pass.
  ghost predicate Idle(c: Context, s: State, day: int, charge: nat) {
    && Ready(c, s) && s.pd == day && !s.loaded && s.dayFee == 0 && s.charge == charge && s.blockCharges == 0 && s.noGrace
    && day * DAY <= s.pt < (day + 1) * DAY
  }

  predicate FreeZone(z: Zone) {
    z.rateType == 1 && z.rate == 0 && z.block == DAY && z.free1 == 0 && z.allowance == 0 && z.minFee == 0
  }

  // From this minute a free zone takes the clock to the next midnight.
  ghost predicate FreeDay(c: Context, entry: int, n: int, day: int, pt: int) {
    c.tables(day).Ok? &&
    var t := c.tables(day).value;
    && |t.bounds| == |t.zones| + 1 && 1 <= |t.zones| && pt < EndOf(t)
    && !t.blockMode && t.dayMin == 0 && t.dayMax == 0
    && FreeZone(t.zones[ZoneAt(t, pt)]) && t.bounds[ZoneAt(t, pt) + 1] <= pt + DAY
    && CutOff(c, entry, n, t, ZoneAt(t, pt), pt + DAY) == (day + 1) * DAY
  }

  lemma FreeBlock(z: Zone, end: int, n: int, owing: bool, pt: int)
    requires FreeZone(z) && pt < end <= pt + DAY
    ensures Blocks(z, end, n, owing, pt, 0) == (pt + DAY, 0)
  {
    assert Blocks(z, end, n, owing, pt + DAY, 0) == (pt + DAY, 0);
  }

  // The pass over a free day.
  lemma FreePass(c: Context, entry: int, n: int, s: State, day: int, charge: nat) returns (u: State)
    requires Idle(c, s, day, charge) && s.pt < n && FreeDay(c, entry, n, day, s.pt)
    ensures u.pt == (day + 1) * DAY && FinalCharge(u) == charge
    ensures Pass(c, entry, n, s) == GoOn(n, u)
    ensures u.pt < n ==> Idle(c, u, day + 1, charge) && Run(c, entry, n, s) == Run(c, entry, n, u)
    ensures n <= u.pt ==> Run(c, entry, n, s) == Ok(charge)
  {
    var t := c.tables(day).value;
    var k := ZoneAt(t, s.pt);
    var z := t.zones[k];
    var loaded := s.(loaded := true, table := t);
    var entered := loaded.(curMin := 0, curMax := z.maxFee);
    FreeBlock(z, t.bounds[k + 1], n, Owing(s), s.pt);
    u := entered.(pt := (day + 1) * DAY, loaded := false, pd := day + 1);
    PassAdvances(c, entry, n, s);
    hide Ready, ZoneAt, CutOff;
    assert Hourly(c, entry, n, entered, k) == GoOn(n, u) by { hide Blocks; }
    assert Pass(c, entry, n, s) == PassLoaded(c, entry, n, loaded);
  }

  // Days that are free from midnight to midnight.
  lemma {:induction false} WalkFree(c: Context, entry: int, n: int, s: State, day: int, last: int, charge: nat)
    returns (u: State)
    requires Idle(c, s, day, charge) && s.pt == day * DAY && day <= last && last * DAY < n
    requires forall d {:trigger FreeDay(c, entry, n, d, d * DAY)} | day <= d < last :: FreeDay(c, entry, n, d, d * DAY)
    ensures Idle(c, u, last, charge) && u.pt == last * DAY
    ensures Run(c, entry, n, s) == Run(c, entry, n, u)
    decreases last - day
  {
    u := s;
    if day < last {
      assert FreeDay(c, entry, n, day, day * DAY);
      hide FreeDay, FinalCharge, Ready;
      assert (day + 1) * DAY <= last * DAY;
      var next := FreePass(c, entry, n, s, day, charge);
      u := WalkFree(c, entry, n, next, day + 1, last, charge);
    }
  }

  // The first pass of a stay, on the table of its day.
  lemma FirstPass(c: Context, entry: nat, n: int, t: Day) returns (s: State)
    requires WellShaped(c) && c.tables(entry / DAY) == Ok(t) && entry <= n
    ensures s == Initial(entry, true).(loaded := true, table := t)
    ensures Idle(c, Initial(entry, true), entry / DAY, 0)
    ensures DayShape(t, entry / DAY) && entry < EndOf(t)
    ensures Pass(c, entry, n, Initial(entry, true)) == PassLoaded(c, entry, n, s)
    ensures Charge(c, entry, n, true) == Run(c, entry, n, Initial(entry, true))
  {
    s := Initial(entry, true).(loaded := true, table := t);
    InitialReady(c, entry, true);
    assert TableShape(c.tables, entry / DAY);
    hide WellShaped, DayShape, PassLoaded;
  }
}
