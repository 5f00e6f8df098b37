/**
 The fee engine as a pure specification: one pass of its outer loop as a function on the engine's state, and a fee
 as the run of passes from entry to effective pay time.
 */
module FeeEngine {
  import opened Tariff

  /** The variables that outlive one pass: the clock pt, the current day pd and its table, the fee of the day and the
      charge of the closed days, the 24-hour charges, and the flags. curMin and curMax are the zone limits of the last
      zone entered; a 24-hour pass reads them stale. */
  datatype State = State(
    pt: int, pd: int, loaded: bool, table: Day,
    dayFee: nat, charge: nat, blockCharges: nat,
    freed: bool, noGrace: bool, motorcycleChecked: bool, curMin: nat, curMax: nat)

  datatype Outcome = Error(code: int) | Grace | Stop(last: State) | Next(next: State)

  /** What holds at the top of each pass: the current day is not after the clock, the clock is before the end of the
      current day's table, and a loaded table is the current day's. */
  ghost predicate Ready(c: Context, s: State) {
    && WellShaped(c)
    && s.pd * DAY <= s.pt
    && (if s.loaded then c.tables(s.pd) == Ok(s.table) else s.dayFee == 0)
    && (c.tables(s.pd).Ok? ==>
          DayShape(c.tables(s.pd).value, s.pd) && s.pt < EndOf(c.tables(s.pd).value))
  }

  // ---------- Fees and limits ----------

  function Clamp(fee: nat, low: nat, high: nat): nat {
    var raised := if low > 0 && fee < low then low else fee;
    if high > 0 && raised > high then high else raised
  }

  /** The charge when the loop ends in state s, before rounding. */
  function FinalCharge(s: State): nat {
    var charge := s.charge + if s.dayFee > 0 then Clamp(s.dayFee, s.table.dayMin, s.table.dayMax) else 0;
    if s.table.blockMode then
      s.blockCharges + if charge > s.table.blockFee then s.table.blockFee else charge
    else charge
  }

  function Round(charge: nat, mode: int): nat
    requires 0 <= mode <= 3
  {
    if mode == 0 then charge
    else if mode == 1 then (charge + 99) / 100
    else if mode == 2 then charge / 100
    else (charge + 50) / 100
  }

  // ---------- Lookup ----------

  function ZoneAtFrom(table: Day, pt: int, k: nat): (zone: nat)
    requires |table.bounds| == |table.zones| + 1
    requires 1 <= k <= |table.zones| && pt < EndOf(table)
    requires k > 1 ==> table.bounds[k - 1] <= pt
    ensures zone < |table.zones| && pt < table.bounds[zone + 1]
    ensures zone >= 1 ==> table.bounds[zone] <= pt
    decreases |table.zones| - k
  {
    if pt < table.bounds[k] then k - 1 else ZoneAtFrom(table, pt, k + 1)
  }

  function ZoneAt(table: Day, pt: int): (zone: nat)
    requires |table.bounds| == |table.zones| + 1 && 1 <= |table.zones| && pt < EndOf(table)
    ensures zone < |table.zones| && pt < table.bounds[zone + 1]
    ensures zone >= 1 ==> table.bounds[zone] <= pt
  {
    ZoneAtFrom(table, pt, 1)
  }

  // ---------- First free time ----------

  // The clock and the fee after the free blocks, whether they are used up, and whether the pay time is reached.
  datatype Free = Free(pt: int, fee: nat, freed: bool, stop: bool)

  function FreeUntil(p: Params, n: int, pt: int, fee: nat): Free {
    if pt >= n then Free(pt, fee, false, true) else Free(pt, fee, p.firstHourMode == 1, false)
  }

  // The third free block when zone cutoff is off and the second one may already have left the zone.
  function ThirdFree(p: Params, z: Zone, end: int, n: int, nextPerEntry: bool, pt: int): Free {
    if p.firstHour > 2 && !(end <= pt && nextPerEntry) then
      FreeUntil(p, n, pt + z.free3, z.add1 + z.add2 + z.add3)
    else FreeUntil(p, n, pt, z.add1 + z.add2)
  }

  function FirstFree(p: Params, z: Zone, end: int, n: int, nextPerEntry: bool, cutoff: bool, pt: int): Free {
    if end - pt <= z.free1 then
      var pt1 := if cutoff then end else pt + z.free1;
      if pt1 >= n then Free(pt1, z.add1, false, true)
      else if p.firstHour > 1 && !cutoff && !(end <= pt1 && nextPerEntry) then
        var pt2 := pt1 + z.free2;
        if pt2 >= n then Free(pt2, z.add1 + z.add2, false, true)
        else ThirdFree(p, z, end, n, nextPerEntry, pt2)
      else FreeUntil(p, n, pt1, z.add1)
    else
      var pt1 := pt + z.free1;
      if pt1 >= n then Free(pt1, z.add1, false, true)
      else if p.firstHour <= 1 then Free(pt1, z.add1, false, false)
      else if end - pt1 <= z.free2 then
        var pt2 := if cutoff then end else pt1 + z.free2;
        if pt2 >= n then Free(pt2, z.add1 + z.add2, false, true)
        else if cutoff then FreeUntil(p, n, pt2, z.add1 + z.add2)
        else ThirdFree(p, z, end, n, nextPerEntry, pt2)
      else
        var pt2 := pt1 + z.free2;
        if pt2 >= n then Free(pt2, z.add1 + z.add2, false, true)
        else if p.firstHour <= 2 then Free(pt2, z.add1 + z.add2, false, false)
        else
          var pt3 := if end - pt2 <= z.free3 && cutoff then end else pt2 + z.free3;
          FreeUntil(p, n, pt3, z.add1 + z.add2 + z.add3)
  }

  // ---------- Charge blocks of one zone ----------

  predicate WithinAllowance(z: Zone, owing: bool, n: int, pt: int) {
    z.allowance > 0 && owing && n - pt <= z.allowance
  }

  /** The clock and the fee after the charge blocks of an hourly zone that ends at end. */
  function Blocks(z: Zone, end: int, n: int, owing: bool, pt: int, fee: nat): (int, nat)
    requires 1 <= z.block
    decreases end - pt
  {
    if end <= pt then (pt, fee)
    else
      var charged := if WithinAllowance(z, owing || fee > 0, n, pt) then fee else fee + z.rate;
      if z.maxFee > 0 && charged >= z.maxFee then (end, charged)
      else if pt + z.block >= n then (pt + z.block, charged)
      else Blocks(z, end, n, owing, pt + z.block, charged)
  }

  // ---------- One pass ----------

  ghost function Enter(c: Context, s: State): Result<State>
    requires Ready(c, s)
  {
    if s.loaded then Ok(s)
    else match c.tables(s.pd)
      case Fault(code) => Fault(code)
      case Ok(table) => Ok(s.(loaded := true, table := table, dayFee := 0))
  }

  predicate Owing(s: State) {
    s.charge > 0 || s.dayFee > 0
  }

  function NextPerEntry(table: Day, k: nat): bool
    requires k < |table.zones|
  {
    (if k + 1 < |table.zones| then table.zones[k + 1].rateType else table.nextRateType) == 2
  }

  // Close the day with its limits if the clock has left it.
  function CloseDay(s: State): State {
    if s.pt / DAY > s.pd then
      s.(charge := s.charge + Clamp(s.dayFee, s.table.dayMin, s.table.dayMax), dayFee := 0,
         loaded := false, pd := s.pd + 1)
    else s
  }

  // Close the zone with its limits, then the day.
  function CloseZone(n: int, s: State, zoneFee: nat): Outcome {
    GoOn(n, CloseDay(ChargeZone(s, zoneFee)))
  }

  function ChargeZone(s: State, zoneFee: nat): State {
    s.(dayFee := s.dayFee + Clamp(zoneFee, s.curMin, s.curMax))
  }

  function GoOn(n: int, s: State): Outcome {
    if s.pt >= n then Stop(s) else Next(s)
  }

  predicate FreeApplies(p: Params, z: Zone, s: State) {
    && z.free1 > 0
    && (p.firstHourMode == 0 || !Owing(s))
    && !s.freed
    && p.firstHour > 0
  }

  function StartOfZone(p: Params, z: Zone, end: int, n: int, nextPerEntry: bool, s: State): Free {
    if FreeApplies(p, z, s) then FirstFree(p, z, end, n, nextPerEntry, s.table.zoneCutoff, s.pt)
    else Free(s.pt, 0, false, false)
  }

  // Zone cutoff pulls the clock back to the end of the zone.
  function CutOff(c: Context, entry: int, n: int, table: Day, k: nat, pt: int): int
    requires |table.bounds| == |table.zones| + 1 && k < |table.zones|
  {
    var end := table.bounds[k + 1];
    if !table.zoneCutoff || pt <= end then pt
    else if c.params.hourlyToPerEntryAllowance > 0 && NextPerEntry(table, k)
            && n - entry <= c.params.hourlyToPerEntryAllowance then pt
    else end
  }

  function Hourly(c: Context, entry: int, n: int, s: State, k: nat): Outcome
    requires |s.table.bounds| == |s.table.zones| + 1 && k < |s.table.zones|
    requires 1 <= s.table.zones[k].block
  {
    var z, end := s.table.zones[k], s.table.bounds[k + 1];
    if WithinAllowance(z, Owing(s), n, s.pt) then Stop(s)
    else AfterFree(c, entry, n, s, k, StartOfZone(c.params, z, end, n, NextPerEntry(s.table, k), s))
  }

  // The state and the fee after the charge blocks and the cutoff of an hourly zone.
  function ChargedBlocks(c: Context, entry: int, n: int, s: State, k: nat, free: Free): (State, nat)
    requires |s.table.bounds| == |s.table.zones| + 1 && k < |s.table.zones|
    requires 1 <= s.table.zones[k].block
  {
    var (pt, fee) := Blocks(s.table.zones[k], s.table.bounds[k + 1], n, Owing(s), free.pt, free.fee);
    (s.(pt := CutOff(c, entry, n, s.table, k, pt), freed := s.freed || free.freed), fee)
  }

  function AfterFree(c: Context, entry: int, n: int, s: State, k: nat, free: Free): Outcome
    requires |s.table.bounds| == |s.table.zones| + 1 && k < |s.table.zones|
    requires 1 <= s.table.zones[k].block
  {
    if free.stop then Stop(s.(dayFee := s.dayFee + free.fee, pt := free.pt))
    else
      var (moved, fee) := ChargedBlocks(c, entry, n, s, k, free);
      CloseZone(n, moved, fee)
  }

  // The charge of entering a per-entry zone.
  function EntryFee(c: Context, n: int, s: State, k: nat): nat
    requires |s.table.bounds| == |s.table.zones| + 1 && k < |s.table.zones|
  {
    var z := s.table.zones[k];
    if WithinAllowance(z, Owing(s), n, s.pt) then 0
    else if PaidAlready(c, s.motorcycleChecked, z, s.table.bounds[k], s.table.bounds[k + 1]) then 0
    else z.rate
  }

  function PerEntry(c: Context, n: int, s: State, k: nat): Outcome
    requires |s.table.bounds| == |s.table.zones| + 1 && k < |s.table.zones|
  {
    CloseZone(n, LeaveEntry(c, s, s.table.bounds[k + 1]), EntryFee(c, n, s, k))
  }

  // The clock after a per-entry zone.
  function LeaveEntry(c: Context, s: State, end: int): State {
    var allowance := c.params.perEntryAllowance;
    s.(pt := if allowance > 0 && end - s.pt < allowance then s.pt + allowance else end,
       motorcycleChecked := s.motorcycleChecked || MotorcycleDay(c))
  }

  predicate MotorcycleDay(c: Context) {
    c.params.motorcyclePerDay > 0 && c.transType == 2
  }

  // A motorcycle that has paid in the zone already enters it free, once per stay.
  predicate PaidAlready(c: Context, checked: bool, z: Zone, start: int, end: int) {
    MotorcycleDay(c) && !checked && z.rate > 0 && c.hasPaid(start, end)
  }

  predicate DayBlock(n: int, s: State) {
    s.table.blockMode && n / 60 - s.pt / 60 >= 24
  }

  function PassLoaded(c: Context, entry: int, n: int, s: State): Outcome
    requires |s.table.bounds| == |s.table.zones| + 1 && 1 <= |s.table.zones| && s.pt < EndOf(s.table)
  {
    if DayBlock(n, s) then
      CloseZone(n, s.(pt := s.pt + DAY, blockCharges := s.blockCharges + s.table.blockFee, noGrace := true), 0)
    else PassZone(c, entry, n, s, ZoneAt(s.table, s.pt))
  }

  function PassZone(c: Context, entry: int, n: int, s: State, k: nat): Outcome
    requires |s.table.bounds| == |s.table.zones| + 1 && k < |s.table.zones|
  {
    var z := s.table.zones[k];
    if z.rateType != 1 && z.rateType != 2 then Error(-3)
    else if !s.noGrace && z.grace > 0 && n - s.pt <= z.grace then Grace
    else
      var t := s.(noGrace := true, curMin := z.minFee, curMax := z.maxFee);
      if z.rateType == 2 then PerEntry(c, n, t, k)
      else if z.block == 0 then Error(-3)
      else Hourly(c, entry, n, t, k)
  }

  ghost function Pass(c: Context, entry: int, n: int, s: State): Outcome
    requires Ready(c, s)
  {
    if n / DAY < s.pd then Stop(s)
    else match Enter(c, s)
      case Fault(code) => Error(code)
      case Ok(t) => PassLoaded(c, entry, n, t)
  }

  // ---------- Each pass keeps the state ready and moves the clock forward ----------

  lemma FreeBounds(p: Params, z: Zone, end: int, n: int, nextPerEntry: bool, cutoff: bool, pt: int)
    requires ZoneShape(z) && pt < end
    ensures var f := FirstFree(p, z, end, n, nextPerEntry, cutoff, pt);
            && pt <= f.pt < end + DAY
            && (z.free1 > 0 ==> pt < f.pt)
            && (cutoff ==> f.pt <= end)
            && f.fee <= z.add1 + z.add2 + z.add3
            && (f.stop <==> f.pt >= n)
  {
  }

  lemma {:induction false} BlocksBounds(z: Zone, end: int, n: int, owing: bool, pt: int, fee: nat)
    requires 1 <= z.block <= DAY
    requires pt < end + DAY
    ensures var (q, charged) := Blocks(z, end, n, owing, pt, fee);
            && pt <= q < end + DAY
            && (pt < end ==> pt < q)
            && (q < end ==> n <= q)
            && fee <= charged
    decreases end - pt
  {
    if pt < end {
      BlocksBounds(z, end, n, owing, pt + z.block, fee);
      BlocksBounds(z, end, n, owing, pt + z.block, fee + z.rate);
    }
  }

  // The state a pass works on, and what it may leave behind.
  ghost predicate Loaded(c: Context, s: State) {
    Ready(c, s) && s.loaded
  }

  lemma LoadedFacts(c: Context, s: State)
    requires Loaded(c, s)
    ensures DayShape(s.table, s.pd) && s.pt < EndOf(s.table)
    ensures (s.pd + 1) * DAY <= EndOf(s.table)
    ensures forall k {:trigger s.table.zones[k]} :: 0 <= k < |s.table.zones| ==>
              ZoneShape(s.table.zones[k]) && s.table.bounds[k] < s.table.bounds[k + 1] <= EndOf(s.table)
  {
  }

  predicate Moved(s: State, t: State) {
    && s.pt < t.pt
    && s.pd <= t.pd <= s.pd + 1
  }

  lemma CloseZoneReady(c: Context, n: int, s: State, moved: State, zoneFee: nat)
    requires Loaded(c, s)
    requires moved.table == s.table && moved.pd == s.pd && moved.loaded
    requires s.pt < moved.pt < EndOf(s.table) + DAY
    ensures var o := CloseZone(n, moved, zoneFee);
            && (o.Next? ==> Ready(c, o.next) && Moved(s, o.next) && o.next.pt == moved.pt < n)
            && (o.Stop? ==> o.last.pt == moved.pt && o.last.pd <= moved.pd + 1)
  {
    hide Clamp;
    LoadedFacts(c, s);
    hide DayShape;
    if moved.pt / DAY > s.pd {
      assert (s.pd + 1) * DAY <= moved.pt;
      if c.tables(s.pd + 1).Ok? {
        assert TableShape(c.tables, s.pd + 1) && SameEnd(c.tables, s.pd, s.pd + 1);
      }
    } else {
      assert moved.pt < (s.pd + 1) * DAY;
    }
  }

  lemma PassLoadedAdvances(c: Context, entry: int, n: int, s: State)
    requires Loaded(c, s)
    ensures var o := PassLoaded(c, entry, n, s);
            o.Next? ==> Ready(c, o.next) && Moved(s, o.next) && o.next.pt < n
  {
    hide WellShaped, CloseZone, PerEntry, Hourly;
    LoadedFacts(c, s);
    hide DayShape;
    var k := ZoneAt(s.table, s.pt);
    var z, end := s.table.zones[k], s.table.bounds[k + 1];
    if DayBlock(n, s) {
      var moved := s.(pt := s.pt + DAY, blockCharges := s.blockCharges + s.table.blockFee, noGrace := true);
      CloseZoneReady(c, n, s, moved, 0);
    } else {
      var t := s.(noGrace := true, curMin := z.minFee, curMax := z.maxFee);
      if z.rateType == 2 {
        PerEntryAdvances(c, n, t, k);
      } else if z.block != 0 {
        HourlyAdvances(c, entry, n, t, k);
      }
    }
  }

  lemma PerEntryAdvances(c: Context, n: int, s: State, k: nat)
    requires Loaded(c, s)
    requires k < |s.table.zones| && s.pt < s.table.bounds[k + 1] <= EndOf(s.table)
    ensures var o := PerEntry(c, n, s, k);
            o.Next? ==> Ready(c, o.next) && Moved(s, o.next) && o.next.pt < n
  {
    forall moved: State, fee: nat |
      && moved.table == s.table && moved.pd == s.pd && moved.loaded
      && s.pt < moved.pt < EndOf(s.table) + DAY
      ensures var o := CloseZone(n, moved, fee); o.Next? ==> Ready(c, o.next) && Moved(s, o.next) && o.next.pt < n
    {
      CloseZoneReady(c, n, s, moved, fee);
    }
  }

  lemma HourlyAdvances(c: Context, entry: int, n: int, s: State, k: nat)
    requires Loaded(c, s)
    requires k < |s.table.zones| && s.pt < s.table.bounds[k + 1] <= EndOf(s.table)
    requires 1 <= s.table.zones[k].block && ZoneShape(s.table.zones[k])
    ensures var o := Hourly(c, entry, n, s, k);
            o.Next? ==> Ready(c, o.next) && Moved(s, o.next) && o.next.pt < n
  {
    var z, end := s.table.zones[k], s.table.bounds[k + 1];
    var next := NextPerEntry(s.table, k);
    FreeBounds(c.params, z, end, n, next, s.table.zoneCutoff, s.pt);
    var free := StartOfZone(c.params, z, end, n, next, s);
    hide FirstFree, Blocks, CloseZone;
    BlocksBounds(z, end, n, Owing(s), free.pt, free.fee);
    var (pt, fee) := Blocks(z, end, n, Owing(s), free.pt, free.fee);
    var moved := s.(pt := CutOff(c, entry, n, s.table, k, pt), freed := s.freed || free.freed);
    CloseZoneReady(c, n, s, moved, fee);
  }

  // No pass over a chargeable tariff ends in an error code.
  lemma PassNeverFaults(c: Context, entry: int, n: int, s: State)
    requires Chargeable(c) && Loaded(c, s)
    ensures !PassLoaded(c, entry, n, s).Error?
  {
    LoadedFacts(c, s);
    hide WellShaped, DayShape, Blocks, CutOff, StartOfZone;
    var k := ZoneAt(s.table, s.pt);
    assert c.tables(s.pd).value.zones[k] in c.tables(s.pd).value.zones;
  }

  /** Every pass that goes on leaves the next one ready, moves the clock at least a minute forward although zone
      cutoff may pull it back, leaves it before the pay time, and closes at most one day. */
  lemma PassAdvances(c: Context, entry: int, n: int, s: State)
    requires Ready(c, s)
    ensures var o := Pass(c, entry, n, s);
            o.Next? ==> Ready(c, o.next) && Moved(s, o.next) && o.next.pt < n
  {
    hide PassLoaded;
    if Enter(c, s).Ok? {
      PassLoadedAdvances(c, entry, n, Enter(c, s).value);
    }
  }

  /** The lookup finds a zone, and only one zone of the table contains the clock: no stale index is ever used. */
  lemma LookupFindsTheZone(c: Context, s: State)
    requires Ready(c, s) && c.tables(s.pd).Ok?
    ensures var table := c.tables(s.pd).value;
            && table.bounds[ZoneAt(table, s.pt)] <= s.pt < table.bounds[ZoneAt(table, s.pt) + 1]
            && forall k :: 0 <= k < |table.zones| && table.bounds[k] <= s.pt < table.bounds[k + 1] ==>
                 k == ZoneAt(table, s.pt)
  {
    var table := c.tables(s.pd).value;
    var zone := ZoneAt(table, s.pt);
    assert forall j, k :: 0 <= j < k < |table.bounds| ==> table.bounds[j] < table.bounds[k];
    forall k | 0 <= k < |table.zones| && table.bounds[k] <= s.pt < table.bounds[k + 1] ensures k == zone {
      assert !(k + 1 < zone) && !(zone + 1 < k);
    }
  }

  // ---------- The fee ----------

  /** The run of passes from state s: the charge before rounding. */
  ghost function Run(c: Context, entry: int, n: int, s: State): Result<nat>
    requires Ready(c, s)
    decreases n - s.pt
  {
    PassAdvances(c, entry, n, s);
    match Pass(c, entry, n, s)
    case Error(code) => Fault(code)
    case Grace => Ok(0)
    case Stop(last) => Ok(FinalCharge(last))
    case Next(next) => Run(c, entry, n, next)
  }

  // Before the first table is loaded the source's day limits are zero.
  const NO_TABLE := Day([], [], 0, 0, 0, false, false, 0)

  function Initial(entry: int, noGrace: bool): State {
    State(entry, entry / DAY, false, NO_TABLE, 0, 0, 0, false, noGrace, false, 0, 0)
  }

  lemma InitialReady(c: Context, entry: int, noGrace: bool)
    requires WellShaped(c)
    ensures Ready(c, Initial(entry, noGrace))
  {
    assert TableShape(c.tables, entry / DAY);
  }

  // The charge before rounding, between whole minutes.
  ghost function Charge(c: Context, entry: int, n: int, noGrace: bool): Result<nat>
    requires WellShaped(c)
  {
    InitialReady(c, entry, noGrace);
    Run(c, entry, n, Initial(entry, noGrace))
  }

  /** The minute the fee is calculated to: as many minutes after that of entry as the stay has, rounded up. */
  function EffectiveMinute(entry: nat, pay: nat): int {
    entry / 60 + (pay - entry + 59) / 60
  }

  /** The parking fee between two times in seconds. */
  ghost function ParkingFee(c: Context, entry: nat, pay: nat, noGrace: bool): Result<nat>
    requires WellShaped(c)
  {
    if pay / 60 < entry / 60 then Ok(0)
    else match Charge(c, entry / 60, EffectiveMinute(entry, pay), noGrace)
      case Fault(code) => Fault(code)
      case Ok(charge) => Ok(Round(charge, c.params.roundingMode))
  }
}
