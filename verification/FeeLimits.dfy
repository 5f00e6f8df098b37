/**
 What a stay costs under minima and maxima: in one hourly zone, and from day to day on one hourly rate.
 */
module FeeLimits {
  import opened Tariff
  import opened FeeEngine
  import opened ZoneCharge
  import FeeFreeTime
  import FeeMonotone
  import FeeUniform

  /** A fee under a minimum and a maximum, each of which is none at 0; the maximum wins over a minimum above it. */
  predicate IsLimited(charge: nat, fee: nat, low: nat, high: nat) {
    && (fee <= low && (high == 0 || low <= high) ==> charge == low)
    && (high > 0 && (high <= fee || high < low) ==> charge == high)
    && (low <= fee && (high == 0 || fee <= high) ==> charge == fee)
  }

  lemma ClampLimits(fee: nat, low: nat, high: nat)
    ensures IsLimited(Clamp(fee, low, high), fee, low, high)
  {
  }

  // ---------- One hourly zone ----------

  // An hourly zone that is entered within it, without free time or allowance.
  predicate PlainZone(p: Params, z: Zone) {
    z.rateType == 1 && 1 <= z.block <= DAY && FeeMonotone.StartsPlain(p, z) && z.allowance == 0
  }

  ghost predicate StayInZone(c: Context, entry: int, n: int, noGrace: bool, table: Day, k: nat) {
    && WellShaped(c) && c.tables(entry / DAY) == Ok(table) && !table.blockMode
    && |table.bounds| == |table.zones| + 1 && k < |table.zones| && PlainZone(c.params, table.zones[k])
    && table.bounds[k] <= entry < n <= table.bounds[k + 1]
    && (noGrace || n - entry > table.zones[k].grace)
  }

  // The zone of the entry is the one found.
  lemma ZoneEntered(c: Context, entry: int, n: int, noGrace: bool, table: Day, k: nat) returns (s: State)
    requires StayInZone(c, entry, n, noGrace, table, k)
    ensures s == Initial(entry, true).(loaded := true, table := table, curMin := table.zones[k].minFee,
                                       curMax := table.zones[k].maxFee)
    ensures Ready(c, Initial(entry, noGrace)) && Charge(c, entry, n, noGrace) == Run(c, entry, n, Initial(entry, noGrace))
    ensures Pass(c, entry, n, Initial(entry, noGrace)) == Hourly(c, entry, n, s, k)
  {
    s := Initial(entry, true).(loaded := true, table := table, curMin := table.zones[k].minFee,
                               curMax := table.zones[k].maxFee);
    InitialReady(c, entry, noGrace);
    LookupFindsTheZone(c, Initial(entry, noGrace));
    hide WellShaped, DayShape, Hourly;
    assert ZoneAt(table, entry) == k;
    hide ZoneAt;
    var loaded := Initial(entry, noGrace).(loaded := true, table := table);
    assert Pass(c, entry, n, Initial(entry, noGrace)) == PassLoaded(c, entry, n, loaded);
  }

  // The blocks that have begun after so many minutes.
  function BlockCount(minutes: int, block: nat): (count: nat)
    requires 1 <= block && 1 <= minutes
    ensures block * count - block < minutes <= block * count
  {
    CeilDivPositive(minutes, block);
    FeeUniform.CeilDivBounds(minutes, block);
    CeilDiv(minutes, block)
  }

  lemma CountIsBegun(block: nat, end: int, n: int, pt: int)
    requires 1 <= block && pt < n <= end
    ensures BlocksBegun(block, end, n, pt) == BlockCount(n - pt, block)
  {
  }

  // Where the zone's blocks leave the clock and the fee.
  lemma ZoneBlocks(z: Zone, end: int, n: int, entry: int)
    requires 1 <= z.block && z.allowance == 0 && entry < n <= end
    ensures var (pt, fee) := Blocks(z, end, n, false, entry, 0);
            && n <= pt && Clamp(fee, z.minFee, z.maxFee) == Clamp(z.rate * BlockCount(n - entry, z.block), z.minFee, z.maxFee)
            && (z.rate == 0 ==> pt == entry + z.block * BlockCount(n - entry, z.block))
  {
    ZoneClosedForm(z, end, n, false, entry, 0);
    CountIsBegun(z.block, end, n, entry);
    BlocksReach(z, end, n, entry, 0);
    if z.rate == 0 { FreeRateClock(z, end, n, entry); }
    hide Blocks, Clamp, BlocksBegun, BlockCount;
  }

  lemma {:induction false} BlocksReach(z: Zone, end: int, n: int, pt: int, fee: nat)
    requires 1 <= z.block && pt < n <= end
    ensures n <= Blocks(z, end, n, false, pt, fee).0
    decreases end - pt
  {
    if pt + z.block < n {
      BlocksReach(z, end, n, pt + z.block, fee);
      BlocksReach(z, end, n, pt + z.block, fee + z.rate);
    }
  }

  lemma FreeRateClock(z: Zone, end: int, n: int, pt: int)
    requires 1 <= z.block && z.rate == 0 && pt < n <= end
    ensures Blocks(z, end, n, false, pt, 0).0 == pt + z.block * BlockCount(n - pt, z.block)
  {
    FeeFreeTime.FreeBlocksClock(z, end, n, false, pt);
    CountIsBegun(z.block, end, n, pt);
    hide Blocks, BlocksBegun, BlockCount;
  }

  // The charge of a run that ends in the first pass.
  lemma StopsAtOnce(c: Context, entry: int, n: int, s: State, t: State, zoneFee: nat) returns (charge: nat)
    requires !t.table.blockMode && t.charge == t.dayFee == 0 && n <= t.pt && Ready(c, s)
    requires Pass(c, entry, n, s) == GoOn(n, CloseDay(t.(dayFee := zoneFee)))
    ensures Run(c, entry, n, s) == Ok(charge)
    ensures zoneFee > 0 || t.pt / DAY > t.pd ==> IsLimited(charge, zoneFee, t.table.dayMin, t.table.dayMax)
    ensures zoneFee == 0 && t.pt / DAY <= t.pd ==> charge == 0
  {
    ClampLimits(zoneFee, t.table.dayMin, t.table.dayMax);
    hide Clamp, IsLimited, Ready;
    charge := FinalCharge(CloseDay(t.(dayFee := zoneFee)));
  }

  /** The fee of the blocks begun under the zone's limits, and the charge under the day's. A zone that costs nothing is charged
      only if its last block runs into a later day. */
  predicate ZoneCosts(z: Zone, table: Day, entry: int, n: int, zoneFee: nat, charge: nat)
    requires 1 <= z.block && entry < n
  {
    var count := BlockCount(n - entry, z.block);
    && IsLimited(zoneFee, z.rate * count, z.minFee, z.maxFee)
    && (zoneFee > 0 ==> IsLimited(charge, zoneFee, table.dayMin, table.dayMax))
    && (zoneFee == 0 && !table.zoneCutoff ==>
          if (entry + z.block * count) / DAY > entry / DAY then IsLimited(charge, 0, table.dayMin, table.dayMax)
          else charge == 0)
  }

  lemma ZoneLimits(z: Zone, count: nat, zoneFee: nat)
    requires 1 <= count && zoneFee == Clamp(z.rate * count, z.minFee, z.maxFee)
    ensures IsLimited(zoneFee, z.rate * count, z.minFee, z.maxFee) && (zoneFee == 0 ==> z.rate == 0)
  {
    ClampLimits(z.rate * count, z.minFee, z.maxFee);
    FeeMonotone.ClampPositive(z.rate * count, z.minFee, z.maxFee);
    assert z.rate > 0 ==> z.rate * count > 0;
    hide Clamp, IsLimited;
  }

  // The pass over the zone.
  lemma ZonePass(c: Context, entry: int, n: int, s: State, k: nat) returns (clock: int, zoneFee: nat)
    requires |s.table.bounds| == |s.table.zones| + 1 && k < |s.table.zones| && PlainZone(c.params, s.table.zones[k])
    requires s.pt == entry < n <= s.table.bounds[k + 1] && s.charge == s.dayFee == 0
    requires s.curMin == s.table.zones[k].minFee && s.curMax == s.table.zones[k].maxFee
    ensures Hourly(c, entry, n, s, k) == GoOn(n, CloseDay(s.(pt := clock, dayFee := zoneFee))) && n <= clock
    ensures var z := s.table.zones[k];
            && IsLimited(zoneFee, z.rate * BlockCount(n - entry, z.block), z.minFee, z.maxFee)
            && (zoneFee == 0 && !s.table.zoneCutoff ==> clock == entry + z.block * BlockCount(n - entry, z.block))
  {
    var z, end := s.table.zones[k], s.table.bounds[k + 1];
    ZoneBlocks(z, end, n, entry);
    var (pt, fee) := Blocks(z, end, n, false, entry, 0);
    zoneFee := Clamp(fee, z.minFee, z.maxFee);
    ZoneLimits(z, BlockCount(n - entry, z.block), zoneFee);
    hide Blocks, Clamp, BlockCount, IsLimited, NextPerEntry;
    clock := CutOff(c, entry, n, s.table, k, pt);
    assert ChargedBlocks(c, entry, n, s, k, Free(entry, 0, false, false)) == (s.(pt := clock), fee);
  }

  /** A stay inside one hourly zone, without free time or allowance, costs that. */
  lemma ZoneStayExact(c: Context, entry: int, n: int, noGrace: bool, table: Day, k: nat) returns (zoneFee: nat, charge: nat)
    requires StayInZone(c, entry, n, noGrace, table, k)
    ensures WellShaped(c) && Charge(c, entry, n, noGrace) == Ok(charge)
    ensures ZoneCosts(table.zones[k], table, entry, n, zoneFee, charge)
  {
    var s := ZoneEntered(c, entry, n, noGrace, table, k);
    var clock;
    clock, zoneFee := ZonePass(c, entry, n, s, k);
    hide WellShaped, DayShape, Pass, Ready, BlockCount, IsLimited, Hourly, CloseDay;
    charge := StopsAtOnce(c, entry, n, Initial(entry, noGrace), s.(pt := clock), zoneFee);
  }

  // ---------- From day to day ----------

  function Limited(fee: nat, low: nat, high: nat): (charge: nat)
    ensures IsLimited(charge, fee, low, high)
  {
    if high > 0 && (high <= fee || high < low) then high else if fee < low then low else fee
  }

  // What the three clauses say is one amount.
  lemma LimitedIs(charge: nat, fee: nat, low: nat, high: nat)
    requires IsLimited(charge, fee, low, high)
    ensures charge == Limited(fee, low, high)
  {
  }

  predicate UniformDay(table: Day, day: int, rate: nat, block: nat) {
    && !table.blockMode && !table.zoneCutoff && |table.bounds| == |table.zones| + 1
    && EndOf(table) == (day + 1) * DAY
    && forall z :: z in table.zones ==> FeeUniform.UniformZone(z, rate, block)
  }

  /** One rate for one block in every zone, no zone limits, and days from midnight to midnight under limits of their own. */
  ghost predicate UniformDays(c: Context, rate: nat, block: nat) {
    && WellShaped(c) && 1 <= rate && 1 <= block <= DAY
    && forall day {:trigger c.tables(day)} :: c.tables(day).Ok? && UniformDay(c.tables(day).value, day, rate, block)
  }

  function Earlier(n: int, m: int): int {
    if n <= m then n else m
  }

  function EndOfDay(pt: int): int {
    (pt / DAY + 1) * DAY
  }

  /** Each day charges, under its limits, the blocks that begin in it; a block that begins before midnight runs on. Of the first
      day a fee is open already. */
  ghost function DaysCharge(c: Context, rate: nat, block: nat, n: int, pt: int, fee: nat): nat
    requires UniformDays(c, rate, block) && pt < n
    decreases n - pt
  {
    var table := c.tables(pt / DAY).value;
    var count := BlockCount(Earlier(n, EndOfDay(pt)) - pt, block);
    var next := pt + block * count;
    Limited(fee + rate * count, table.dayMin, table.dayMax)
    + if next < n then DaysCharge(c, rate, block, n, next, 0) else 0
  }

  // A zone's blocks, and those of the day after it, are those of the day.
  lemma ZoneOfDay(block: nat, end: int, n: int, pt: int)
    requires 1 <= block && pt < n && pt < end <= EndOfDay(pt)
    ensures var until := Earlier(n, EndOfDay(pt));
            var count := BlocksBegun(block, end, n, pt);
            BlockCount(until - pt, block)
            == if pt + block * count < until then count + BlockCount(until - pt - block * count, block) else count
  {
    FeeUniform.CeilDivSplits(Earlier(n, EndOfDay(pt)) - pt, Earlier(n, end) - pt, block);
    hide CeilDiv;
  }

  // The state after a zone: its blocks charged, and the day closed if they left it.
  predicate Advanced(s: State, t: State, count: nat, rate: nat, block: nat) {
    && t.pt == s.pt + block * count && count >= 1
    && !t.table.blockMode && t.table == s.table
    && if t.pt >= (s.pd + 1) * DAY then
         t.pd == s.pd + 1 && !t.loaded && t.dayFee == 0
         && t.charge == s.charge + Limited(s.dayFee + rate * count, s.table.dayMin, s.table.dayMax)
       else t.pd == s.pd && t.loaded && t.charge == s.charge && t.dayFee == s.dayFee + rate * count
  }

  lemma DayClosed(s: State, count: nat, rate: nat, block: nat)
    requires s.loaded && s.curMin == s.curMax == 0 && !s.table.blockMode && count >= 1
    ensures Advanced(s, CloseDay(ChargeZone(s.(pt := s.pt + block * count), rate * count)), count, rate, block)
  {
    var fee := s.dayFee + rate * count;
    ClampLimits(fee, s.table.dayMin, s.table.dayMax);
    LimitedIs(Clamp(fee, s.table.dayMin, s.table.dayMax), fee, s.table.dayMin, s.table.dayMax);
    assert Clamp(rate * count, 0, 0) == rate * count;
    hide Clamp, IsLimited, Limited;
  }

  lemma DayHourly(c: Context, entry: int, n: int, s: State, k: nat, rate: nat, block: nat) returns (t: State)
    requires |s.table.bounds| == |s.table.zones| + 1 && k < |s.table.zones| && s.pt < s.table.bounds[k + 1] && s.pt < n
    requires s.loaded && s.curMin == s.curMax == 0 && !s.table.blockMode && !s.table.zoneCutoff && 1 <= block
    requires FeeUniform.UniformZone(s.table.zones[k], rate, block)
    ensures Hourly(c, entry, n, s, k) == GoOn(n, t)
    ensures Advanced(s, t, BlocksBegun(block, s.table.bounds[k + 1], n, s.pt), rate, block)
  {
    var z, end := s.table.zones[k], s.table.bounds[k + 1];
    var count := BlocksBegun(block, end, n, s.pt);
    UnlimitedZone(z, end, n, Owing(s), s.pt, 0);
    hide Blocks, BlocksBegun, Advanced;
    DayClosed(s, count, rate, block);
    var moved := s.(pt := s.pt + block * count);
    assert ChargedBlocks(c, entry, n, s, k, Free(s.pt, 0, false, false)) == (moved, rate * count);
    hide ChargedBlocks, CloseDay, ChargeZone;
    t := CloseDay(ChargeZone(moved, rate * count));
  }

  // The day's zone that the clock is in.
  lemma DayEntered(c: Context, n: int, s: State, rate: nat, block: nat) returns (u: State, k: nat)
    requires UniformDays(c, rate, block) && Ready(c, s) && s.pt < n
    ensures s.pd == s.pt / DAY && s.pd <= n / DAY && c.tables(s.pd).Ok?
    ensures u == s.(loaded := true, table := c.tables(s.pd).value) && Enter(c, s) == Ok(u)
    ensures UniformDay(u.table, s.pd, rate, block) && k < |u.table.zones| && s.pt < u.table.bounds[k + 1] <= EndOf(u.table)
    ensures FeeUniform.UniformZone(u.table.zones[k], rate, block) && k == ZoneAt(u.table, u.pt)
  {
    assert UniformDay(c.tables(s.pd).value, s.pd, rate, block);
    u := Enter(c, s).value;
    LoadedFacts(c, u);
    hide WellShaped, DayShape, UniformDays;
    k := ZoneAt(u.table, u.pt);
    assert u.table.zones[k] in u.table.zones;
  }

  lemma DayPass(c: Context, entry: int, n: int, s: State, u: State, k: nat, rate: nat, block: nat) returns (v: State)
    requires Ready(c, s) && s.pd <= n / DAY && Enter(c, s) == Ok(u) && !u.table.blockMode
    requires |u.table.bounds| == |u.table.zones| + 1 && k < |u.table.zones| && u.pt < EndOf(u.table)
    requires k == ZoneAt(u.table, u.pt) && FeeUniform.UniformZone(u.table.zones[k], rate, block) && 1 <= block
    ensures v == u.(noGrace := true, curMin := 0, curMax := 0)
    ensures Pass(c, entry, n, s) == Hourly(c, entry, n, v, k)
  {
    v := u.(noGrace := true, curMin := 0, curMax := 0);
    hide Ready, Enter, Hourly, ZoneAt;
    assert PassLoaded(c, entry, n, u) == PassZone(c, entry, n, u, k);
  }

  lemma DayZone(c: Context, entry: int, n: int, s: State, rate: nat, block: nat) returns (t: State, end: int)
    requires UniformDays(c, rate, block) && Ready(c, s) && s.pt < n
    ensures s.pt < end <= (s.pd + 1) * DAY && s.pd == s.pt / DAY && c.tables(s.pd).Ok?
    ensures Pass(c, entry, n, s) == GoOn(n, t)
    ensures var table := c.tables(s.pd).value;
            Advanced(s.(loaded := true, table := table), t, BlocksBegun(block, end, n, s.pt), rate, block)
  {
    var u, k := DayEntered(c, n, s, rate, block);
    assert 1 <= block;
    hide UniformDays, ZoneAt, Hourly, Ready, Enter, Pass, BlocksBegun, Advanced;
    end := u.table.bounds[k + 1];
    var v := DayPass(c, entry, n, s, u, k, rate, block);
    t := DayHourly(c, entry, n, v, k, rate, block);
    AdvancedFrom(u, v, t, BlocksBegun(block, end, n, s.pt), rate, block);
  }

  // The zone's limits do not matter after it.
  lemma AdvancedFrom(s: State, v: State, t: State, count: nat, rate: nat, block: nat)
    requires v == s.(noGrace := v.noGrace, curMin := v.curMin, curMax := v.curMax) && Advanced(v, t, count, rate, block)
    ensures Advanced(s, t, count, rate, block)
  {
    hide Limited;
  }

  // One zone more of the sum: within the day, or at its end.
  lemma DaysChargeStep(c: Context, n: int, s: State, t: State, end: int, rate: nat, block: nat)
    requires UniformDays(c, rate, block) && s.pt < n && s.pt < end <= (s.pd + 1) * DAY && s.pd == s.pt / DAY
    requires c.tables(s.pd) == Ok(s.table) && Advanced(s, t, BlocksBegun(block, end, n, s.pt), rate, block)
    ensures s.charge + DaysCharge(c, rate, block, n, s.pt, s.dayFee)
         == if t.pt < n then t.charge + DaysCharge(c, rate, block, n, t.pt, t.dayFee) else FinalCharge(t)
  {
    ZoneOfDay(block, end, n, s.pt);
    var count := BlocksBegun(block, end, n, s.pt);
    var until := Earlier(n, EndOfDay(s.pt));
    if t.pt < until {
      hide BlocksBegun, BlockCount, UniformDays, Limited, DaysCharge;
      DaysChargeWithin(c, n, s, t, count, rate, block);
    } else {
      assert 1 <= rate;
      hide BlocksBegun, BlockCount, UniformDays, Limited, Advanced, FinalCharge;
      DayOver(n, s, t, count, rate, block);
      assert t.pt == s.pt + block * count by { AdvancedClock(s, t, count, rate, block); }
    }
  }

  lemma AdvancedClock(s: State, t: State, count: nat, rate: nat, block: nat)
    requires Advanced(s, t, count, rate, block)
    ensures t.pt == s.pt + block * count
  {
    hide Limited;
  }

  lemma DaysChargeWithin(c: Context, n: int, s: State, t: State, count: nat, rate: nat, block: nat)
    requires UniformDays(c, rate, block) && s.pt < n && s.pd == s.pt / DAY && c.tables(s.pd) == Ok(s.table)
    requires Advanced(s, t, count, rate, block) && s.pt < t.pt < Earlier(n, EndOfDay(s.pt))
    requires var until := Earlier(n, EndOfDay(s.pt));
             BlockCount(until - s.pt, block) == count + BlockCount(until - t.pt, block)
    ensures s.charge + DaysCharge(c, rate, block, n, s.pt, s.dayFee)
         == t.charge + DaysCharge(c, rate, block, n, t.pt, t.dayFee)
  {
    SameDayClock(s.pt, t.pt);
    var until := Earlier(n, EndOfDay(s.pt));
    var rest := BlockCount(until - t.pt, block);
    BothCounts(block, count, rest);
    BothCounts(rate, count, rest);
    AdvancedWithin(s, t, count, rate, block);
    hide BlockCount, UniformDays, Limited, Earlier, EndOfDay, Advanced;
  }

  lemma SameDayClock(pt: int, later: int)
    requires pt < later < EndOfDay(pt)
    ensures later / DAY == pt / DAY && EndOfDay(later) == EndOfDay(pt)
  {
  }

  lemma BothCounts(x: nat, count: nat, rest: nat)
    ensures x * (count + rest) == x * count + x * rest
  {
  }

  lemma AdvancedWithin(s: State, t: State, count: nat, rate: nat, block: nat)
    requires Advanced(s, t, count, rate, block) && s.pd == s.pt / DAY && t.pt < EndOfDay(s.pt)
    ensures t.pt == s.pt + block * count && t.charge == s.charge && t.dayFee == s.dayFee + rate * count
  {
    hide Limited;
  }

  lemma DayOver(n: int, s: State, t: State, count: nat, rate: nat, block: nat)
    requires Advanced(s, t, count, rate, block) && 1 <= rate && s.pd == s.pt / DAY
    requires t.pt >= Earlier(n, EndOfDay(s.pt))
    ensures n <= t.pt ==> FinalCharge(t) == s.charge + Limited(s.dayFee + rate * count, s.table.dayMin, s.table.dayMax)
    ensures t.pt < n ==> t.dayFee == 0
                         && t.charge == s.charge + Limited(s.dayFee + rate * count, s.table.dayMin, s.table.dayMax)
  {
    assert rate * count >= 1;
    ClampLimits(t.dayFee, t.table.dayMin, t.table.dayMax);
    LimitedIs(Clamp(t.dayFee, t.table.dayMin, t.table.dayMax), t.dayFee, t.table.dayMin, t.table.dayMax);
    hide IsLimited, Limited, Clamp;
  }

  lemma {:induction false} RunDays(c: Context, entry: int, n: int, s: State, rate: nat, block: nat)
    requires UniformDays(c, rate, block) && Ready(c, s) && s.pt < n
    ensures Run(c, entry, n, s) == Ok(s.charge + DaysCharge(c, rate, block, n, s.pt, s.dayFee))
    decreases n - s.pt
  {
    var t, end := DayZone(c, entry, n, s, rate, block);
    PassAdvances(c, entry, n, s);
    var u := s.(loaded := true, table := c.tables(s.pd).value);
    hide Pass, Ready, UniformDays, Advanced, FinalCharge, DaysCharge, BlocksBegun;
    DaysChargeStep(c, n, u, t, end, rate, block);
    if t.pt < n { RunDays(c, entry, n, t, rate, block); }
  }

  /** A stay of any length on one hourly rate costs, day by day, the rate for each block that begins in the day, no less than the
      day's minimum and no more than its maximum. */
  lemma UniformDaysExact(c: Context, entry: int, n: int, noGrace: bool, rate: nat, block: nat)
    requires UniformDays(c, rate, block) && entry < n
    ensures Charge(c, entry, n, noGrace) == Ok(DaysCharge(c, rate, block, n, entry, 0))
  {
    InitialReady(c, entry, noGrace);
    RunDays(c, entry, n, Initial(entry, noGrace), rate, block);
  }
}
