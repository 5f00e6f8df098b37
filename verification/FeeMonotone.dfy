/**
 Parking longer never costs less. Two runs from the same entry, one paid at n and one paid later, are followed in step:
 as long as the shorter one goes on they agree on everything but the fees, and the fees of the longer one are not
 smaller; when the shorter one stops, what the longer one has reached already costs as much.
 */
module FeeMonotone {
  import opened Tariff
  import opened FeeEngine
  import opened ZoneCharge

  // The money of the free blocks that the station grants, and of those up to the last with any length.
  function StartMoney(p: Params, z: Zone): nat {
    if p.firstHour <= 0 || z.free1 == 0 then 0
    else z.add1 + (if p.firstHour > 1 then z.add2 else 0) + (if p.firstHour > 2 then z.add3 else 0)
  }

  function GrantedMoney(p: Params, z: Zone): nat {
    if p.firstHour <= 0 || z.free1 == 0 then 0
    else if p.firstHour > 2 && z.free3 > 0 then z.add1 + z.add2 + z.add3
    else if p.firstHour > 1 && z.free2 > 0 then z.add1 + z.add2
    else z.add1
  }

  // Money added by the free blocks is not cut by the zone maximum.
  predicate AddsWithinMax(p: Params, z: Zone) {
    z.rateType == 1 && z.maxFee > 0 ==> GrantedMoney(p, z) <= z.maxFee
  }

  // More than can be charged in so many minutes of the zone.
  predicate OutOfReach(p: Params, z: Zone, length: int)
    requires 1 <= z.block && 1 <= length
  {
    StartMoney(p, z) + z.rate * CeilDiv(length, z.block) < z.maxFee
  }

  /** An allowance on an hourly zone of some length never lets the clock run on where a later pay time stops it: it is no
      longer than a block, the blocks are of a minute, they are free, or the maximum is none, is reached by the first block, or
      out of reach. */
  predicate AllowanceHarmless(p: Params, z: Zone, length: int) {
    z.rateType == 1 && 1 <= z.block && 1 <= length ==>
      || z.allowance <= z.block || z.block == 1 || z.rate == 0 || z.maxFee == 0
      || (z.maxFee <= z.rate && StartsPlain(p, z))
      || OutOfReach(p, z, length)
  }

  // The zone has no free time.
  predicate StartsPlain(p: Params, z: Zone) {
    p.firstHour <= 0 || z.free1 == 0
  }

  predicate AllowancesHarmless(p: Params, table: Day) {
    && |table.bounds| == |table.zones| + 1
    && forall k {:trigger table.zones[k]} | 0 <= k < |table.zones| ::
         AllowanceHarmless(p, table.zones[k], table.bounds[k + 1] - table.bounds[k])
  }

  // No hourly zone is followed by a per-entry one.
  predicate NoEntryAfterHourly(table: Day) {
    forall k :: 0 <= k < |table.zones| && table.zones[k].rateType == 1 ==> !NextPerEntry(table, k)
  }

  predicate MonotoneTable(p: Params, table: Day) {
    && !table.blockMode
    && (forall z :: z in table.zones ==> AddsWithinMax(p, z))
    && (table.zoneCutoff || AllowancesHarmless(p, table))
    && (table.zoneCutoff ==> p.hourlyToPerEntryAllowance == 0 || NoEntryAfterHourly(table))
  }

  // No day is in 24-hour mode, and none leads to an error code.
  ghost predicate ZonesTariff(c: Context) {
    Chargeable(c) && forall day {:trigger c.tables(day)} :: !c.tables(day).value.blockMode
  }

  /** Tariffs for which the fee never falls: no 24-hour day, free-block money within any zone maximum, and on each day either
      zone cutoff, with no hourly-to-per-entry allowance that could undo it, or only harmless allowances. */
  ghost predicate MonotoneTariff(c: Context) {
    ZonesTariff(c) && forall day {:trigger c.tables(day)} :: MonotoneTable(c.params, c.tables(day).value)
  }

  // ---------- Limits ----------

  lemma ClampMonotone(x: nat, y: nat, low: nat, high: nat)
    requires x <= y || (high > 0 && high <= y)
    ensures Clamp(x, low, high) <= Clamp(y, low, high)
  {
  }

  // ---------- Two runs in step ----------

  /** The longer run owes at least as much, and owes anything exactly when the shorter one does. */
  predicate Related(s: State, t: State) {
    && t == s.(dayFee := t.dayFee, charge := t.charge)
    && s.dayFee <= t.dayFee
    && s.charge <= t.charge
    && (Owing(s) <==> Owing(t))
  }

  // The state a pass stopped in or goes on from.
  function Reached(o: Outcome): State
    requires o.Stop? || o.Next?
  {
    if o.Stop? then o.last else o.next
  }

  predicate InStep(o: Outcome, p: Outcome) {
    && (o.Next? ==> p.Next? && Related(o.next, p.next))
    && (o.Stop? ==> (p.Stop? || p.Next?) && FinalCharge(o.last) <= FinalCharge(Reached(p)))
  }

  lemma RelatedFinal(s: State, t: State)
    requires Related(s, t) && !s.table.blockMode
    ensures FinalCharge(s) <= FinalCharge(t)
  {
  }

  lemma CloseZoneInStep(n: int, m: int, s: State, t: State, fee: nat, later: nat)
    requires n <= m && !s.table.blockMode
    requires t == s.(pt := t.pt, dayFee := t.dayFee, charge := t.charge)
    requires s.dayFee <= t.dayFee && s.charge <= t.charge && (Owing(s) <==> Owing(t))
    requires s.pt <= t.pt || later > 0
    requires Clamp(fee, s.curMin, s.curMax) <= Clamp(later, s.curMin, s.curMax)
    requires s.pt < n ==> t.pt == s.pt && (Owing(s) || fee > 0 <==> Owing(t) || later > 0)
    ensures InStep(CloseZone(n, s, fee), CloseZone(m, t, later))
  {
    var u, v := ChargeZone(s, fee), ChargeZone(t, later);
    ChargeZoneInStep(s, t, fee, later);
    hide ChargeZone, CloseDay, FinalCharge;
    CloseDayClock(u);
    CloseDayClock(v);
    if s.pt < n {
      CloseDayRelated(u, v);
    } else {
      CloseDayFinal(u, v);
    }
  }

  lemma ChargeZoneInStep(s: State, t: State, fee: nat, later: nat)
    requires t == s.(pt := t.pt, dayFee := t.dayFee, charge := t.charge)
    requires s.dayFee <= t.dayFee && s.charge <= t.charge && (Owing(s) <==> Owing(t))
    requires Clamp(fee, s.curMin, s.curMax) <= Clamp(later, s.curMin, s.curMax)
    ensures var u, v := ChargeZone(s, fee), ChargeZone(t, later);
            && v == u.(pt := v.pt, dayFee := v.dayFee, charge := v.charge)
            && u.pt == s.pt && v.pt == t.pt && u.pd == s.pd && u.table == s.table
            && u.dayFee <= v.dayFee && u.charge <= v.charge
            && ((Owing(s) || fee > 0 <==> Owing(t) || later > 0) ==> (Owing(u) <==> Owing(v)))
            && (later > 0 ==> v.dayFee > 0)
  {
    ClampPositive(fee, s.curMin, s.curMax);
    ClampPositive(later, s.curMin, s.curMax);
    assert fee == 0 && later == 0 ==> Clamp(fee, s.curMin, s.curMax) == Clamp(later, s.curMin, s.curMax);
    hide Clamp;
  }

  lemma CloseDayClock(s: State)
    ensures CloseDay(s).pt == s.pt
  {
  }

  lemma CloseDayRelated(s: State, t: State)
    requires t == s.(dayFee := t.dayFee, charge := t.charge)
    requires s.dayFee <= t.dayFee && s.charge <= t.charge && (Owing(s) <==> Owing(t))
    ensures Related(CloseDay(s), CloseDay(t))
  {
    ClampMonotone(s.dayFee, t.dayFee, s.table.dayMin, s.table.dayMax);
    ClampPositive(s.dayFee, s.table.dayMin, s.table.dayMax);
    ClampPositive(t.dayFee, s.table.dayMin, s.table.dayMax);
  }

  lemma CloseDayFinal(s: State, t: State)
    requires !s.table.blockMode && t == s.(pt := t.pt, dayFee := t.dayFee, charge := t.charge)
    requires s.dayFee <= t.dayFee && s.charge <= t.charge && (s.pt <= t.pt || t.dayFee > 0)
    ensures FinalCharge(CloseDay(s)) <= FinalCharge(CloseDay(t))
  {
    ClampMonotone(s.dayFee, t.dayFee, s.table.dayMin, s.table.dayMax);
  }

  lemma ClampPositive(x: nat, low: nat, high: nat)
    ensures x > 0 ==> Clamp(x, low, high) > 0
  {
  }

  /** What a pass reaches never costs less than what it started from. */
  lemma CloseZoneGrows(n: int, s: State, t: State, fee: nat)
    requires !s.table.blockMode
    requires t.table == s.table && t.dayFee == s.dayFee && t.charge == s.charge
    ensures FinalCharge(s) <= FinalCharge(Reached(CloseZone(n, t, fee)))
  {
  }

  lemma PassGrows(c: Context, entry: int, n: int, s: State)
    requires Loaded(c, s) && !s.table.blockMode
    ensures var o := PassLoaded(c, entry, n, s); o.Stop? || o.Next? ==> FinalCharge(s) <= FinalCharge(Reached(o))
  {
    LoadedFacts(c, s);
    hide WellShaped, DayShape, CloseZone, Blocks, FirstFree;
    var k := ZoneAt(s.table, s.pt);
    var z, end := s.table.zones[k], s.table.bounds[k + 1];
    var t := s.(noGrace := true, curMin := z.minFee, curMax := z.maxFee);
    assert FinalCharge(t) == FinalCharge(s);
    if z.rateType == 2 {
      forall u: State, fee: nat | u.table == s.table && u.dayFee == s.dayFee && u.charge == s.charge
        ensures FinalCharge(s) <= FinalCharge(Reached(CloseZone(n, u, fee)))
      {
        CloseZoneGrows(n, s, u, fee);
      }
    } else if z.rateType == 1 && z.block != 0 {
      HourlyGrows(c, entry, n, t, k);
    }
  }

  lemma HourlyGrows(c: Context, entry: int, n: int, s: State, k: nat)
    requires |s.table.bounds| == |s.table.zones| + 1 && k < |s.table.zones|
    requires 1 <= s.table.zones[k].block && !s.table.blockMode
    ensures var o := Hourly(c, entry, n, s, k); (o.Stop? || o.Next?) && FinalCharge(s) <= FinalCharge(Reached(o))
  {
    var z, end := s.table.zones[k], s.table.bounds[k + 1];
    var free := StartOfZone(c.params, z, end, n, NextPerEntry(s.table, k), s);
    hide Blocks, FirstFree, StartOfZone;
    var (pt, fee) := Blocks(z, end, n, Owing(s), free.pt, free.fee);
    var t := s.(pt := CutOff(c, entry, n, s.table, k, pt), freed := s.freed || free.freed);
    CloseZoneGrows(n, s, t, fee);
  }

  // ---------- Free blocks ----------

  lemma FreeInStep(p: Params, z: Zone, end: int, n: int, m: int, nextPerEntry: bool, cutoff: bool, pt: int)
    requires n <= m && z.free1 > 0 && p.firstHour > 0
    ensures var f, g := FirstFree(p, z, end, n, nextPerEntry, cutoff, pt),
                        FirstFree(p, z, end, m, nextPerEntry, cutoff, pt);
            && (if f.stop then f.fee <= g.fee && f.fee <= GrantedMoney(p, z) else g == f)
            && g.fee <= StartMoney(p, z)
  {
  }

  // ---------- Charge blocks ----------

  // The fee after the next charge block.
  function NextFee(z: Zone, owing: bool, n: int, pt: int, fee: nat): nat {
    if WithinAllowance(z, owing || fee > 0, n, pt) then fee else fee + z.rate
  }

  // In step before a block, the fees are in step after it.
  lemma NextFeeInStep(z: Zone, owing: bool, n: int, m: int, pt: int, fee: nat, later: nat)
    requires n <= m && fee <= later && (owing || fee > 0 <==> owing || later > 0)
    ensures var charged, chargedLater := NextFee(z, owing, n, pt, fee), NextFee(z, owing, m, pt, later);
            && fee <= charged <= chargedLater && later <= chargedLater
            && (owing || charged > 0 <==> owing || chargedLater > 0)
  {
  }

  lemma BlocksStep(z: Zone, end: int, n: int, owing: bool, pt: int, fee: nat)
    requires 1 <= z.block && pt < end
    ensures var charged := NextFee(z, owing, n, pt, fee);
            Blocks(z, end, n, owing, pt, fee)
            == if z.maxFee > 0 && charged >= z.maxFee then (end, charged)
               else if pt + z.block >= n then (pt + z.block, charged)
               else Blocks(z, end, n, owing, pt + z.block, charged)
  {
  }

  lemma {:induction false} BlocksInStep(z: Zone, end: int, n: int, m: int, owing: bool, pt: int, fee: nat, later: nat)
    requires 1 <= z.block <= DAY && n <= m && pt < end + DAY
    requires fee <= later && (owing || fee > 0 <==> owing || later > 0)
    ensures var (p, f) := Blocks(z, end, n, owing, pt, fee);
            var (q, g) := Blocks(z, end, m, owing, pt, later);
            && Clamp(f, z.minFee, z.maxFee) <= Clamp(g, z.minFee, z.maxFee)
            && (p <= q || (end <= q && g > 0))
            && (end <= p ==> (owing || f > 0 <==> owing || g > 0))
    decreases end - pt
  {
    if pt < end {
      var charged, chargedLater := NextFee(z, owing, n, pt, fee), NextFee(z, owing, m, pt, later);
      NextFeeInStep(z, owing, n, m, pt, fee, later);
      BlocksStep(z, end, n, owing, pt, fee);
      BlocksStep(z, end, m, owing, pt, later);
      hide NextFee;
      BlocksBounds(z, end, n, owing, pt + z.block, charged);
      BlocksBounds(z, end, m, owing, pt + z.block, chargedLater);
      if z.maxFee > 0 && chargedLater >= z.maxFee {
        ClampMonotone(Blocks(z, end, n, owing, pt, fee).1, chargedLater, z.minFee, z.maxFee);
      } else if pt + z.block >= n {
        ClampMonotone(charged, Blocks(z, end, m, owing, pt, later).1, z.minFee, z.maxFee);
      } else {
        hide Blocks, Clamp;
        BlocksInStep(z, end, n, m, owing, pt + z.block, charged, chargedLater);
      }
    } else {
      ClampMonotone(fee, later, z.minFee, z.maxFee);
    }
  }

  // What leaves the zone before the earlier pay time is at the same clock for the later one.
  predicate SameClock(z: Zone, end: int, n: int, m: int, owing: bool, pt: int, fee: nat, later: nat)
    requires 1 <= z.block
  {
    var p, q := Blocks(z, end, n, owing, pt, fee).0, Blocks(z, end, m, owing, pt, later).0;
    p < n ==> q == p
  }

  // An allowance of a block at most matters only in the block that reaches the pay time.
  lemma {:induction false} ClockShortAllowance(z: Zone, end: int, n: int, m: int, owing: bool, pt: int, fee: nat)
    requires 1 <= z.block <= DAY && z.allowance <= z.block && n <= m && pt < end + DAY
    ensures SameClock(z, end, n, m, owing, pt, fee, fee)
    decreases end - pt
  {
    if pt < end && pt + z.block < n {
      ClockShortAllowance(z, end, n, m, owing, pt + z.block, fee + z.rate);
    }
  }

  lemma ClockMinuteBlocks(z: Zone, end: int, n: int, m: int, owing: bool, pt: int, fee: nat)
    requires z.block == 1 && n <= m && pt < end + DAY
    ensures SameClock(z, end, n, m, owing, pt, fee, fee)
  {
    if pt < end {
      MinuteBlocksEnd(z, end, n, owing, pt, fee);
      MinuteBlocksEnd(z, end, m, owing, pt, fee);
    }
  }

  lemma {:induction false} MinuteBlocksEnd(z: Zone, end: int, n: int, owing: bool, pt: int, fee: nat)
    requires z.block == 1 && pt < end
    ensures var q := Blocks(z, end, n, owing, pt, fee).0; q <= end && (q < end ==> n <= q)
    decreases end - pt
  {
    if pt + 1 < end {
      MinuteBlocksEnd(z, end, n, owing, pt + 1, fee);
      MinuteBlocksEnd(z, end, n, owing, pt + 1, fee + z.rate);
    }
  }

  lemma {:induction false} ClockFreeBlocks(z: Zone, end: int, n: int, m: int, owing: bool, pt: int, fee: nat)
    requires 1 <= z.block <= DAY && z.rate == 0 && n <= m && pt < end + DAY
    ensures SameClock(z, end, n, m, owing, pt, fee, fee)
    decreases end - pt
  {
    if pt < end && pt + z.block < n {
      ClockFreeBlocks(z, end, n, m, owing, pt + z.block, fee);
    }
  }

  // What can still be charged before the end of the zone is within the maximum, or there is none.
  predicate MaxOutOfReach(z: Zone, end: int, pt: int, fee: nat)
    requires 1 <= z.block
  {
    z.maxFee == 0 || fee + (if pt < end then z.rate * CeilDiv(end - pt, z.block) else 0) < z.maxFee
  }

  lemma ReachStep(z: Zone, end: int, pt: int, fee: nat)
    requires 1 <= z.block && pt < end && MaxOutOfReach(z, end, pt, fee)
    ensures z.maxFee > 0 ==> fee + z.rate < z.maxFee
    ensures MaxOutOfReach(z, end, pt + z.block, fee + z.rate) && MaxOutOfReach(z, end, pt + z.block, fee)
  {
    CeilDivPositive(end - pt, z.block);
    var count := CeilDiv(end - pt, z.block);
    Distribute(z.rate, count - 1);
    if pt + z.block < end {
      assert CeilDiv(end - (pt + z.block), z.block) == count - 1;
    }
    hide CeilDiv;
  }

  lemma {:induction false} ClockOutOfReach(z: Zone, end: int, n: int, m: int, owing: bool, pt: int, fee: nat, later: nat)
    requires 1 <= z.block <= DAY && n <= m && pt < end + DAY
    requires MaxOutOfReach(z, end, pt, fee) && MaxOutOfReach(z, end, pt, later)
    ensures SameClock(z, end, n, m, owing, pt, fee, later)
    decreases end - pt
  {
    if pt < end {
      ReachStep(z, end, pt, fee);
      ReachStep(z, end, pt, later);
      hide MaxOutOfReach;
      if pt + z.block < n {
        var charged := if WithinAllowance(z, owing || fee > 0, n, pt) then fee else fee + z.rate;
        var chargedLater := if WithinAllowance(z, owing || later > 0, m, pt) then later else later + z.rate;
        ClockOutOfReach(z, end, n, m, owing, pt + z.block, charged, chargedLater);
      }
    }
  }

  lemma CeilDivGrows(a: int, a': int, b: int, rate: nat)
    requires 0 <= a <= a' && 1 <= b
    ensures rate * CeilDiv(a, b) <= rate * CeilDiv(a', b)
  {
    var x, y := a + b - 1, a' + b - 1;
    QuotientGrows(x, y, b);
    assert rate * (x / b) <= rate * (y / b);
  }

  lemma QuotientGrows(x: int, y: int, b: int)
    requires 0 <= x <= y && 1 <= b
    ensures x / b <= y / b
  {
    var d, e := x / b, y / b;
    assert x == b * d + x % b && y == b * e + y % b;
    if e < d { MultiplesGrow(b, e + 1, d); }
  }

  lemma MultiplesGrow(b: int, e: int, d: int)
    requires 1 <= b && e <= d
    ensures b * e <= b * d && b * (e - 1) + b == b * e
  {
  }

  // A harmless allowance: the charge blocks from the end of the free time, if any.
  lemma HarmlessClock(p: Params, z: Zone, start: int, end: int, n: int, m: int, owing: bool, pt: int, fee: nat)
    requires 1 <= z.block <= DAY && n <= m && start <= pt < end + DAY && start < end && z.rateType == 1
    requires AllowanceHarmless(p, z, end - start) && fee <= StartMoney(p, z)
    requires StartsPlain(p, z) ==> !WithinAllowance(z, owing, n, pt)
    ensures SameClock(z, end, n, m, owing, pt, fee, fee)
  {
    if z.allowance <= z.block {
      ClockShortAllowance(z, end, n, m, owing, pt, fee);
    } else if z.block == 1 {
      ClockMinuteBlocks(z, end, n, m, owing, pt, fee);
    } else if z.rate == 0 {
      ClockFreeBlocks(z, end, n, m, owing, pt, fee);
    } else if z.maxFee > 0 && z.maxFee <= z.rate && StartsPlain(p, z) {
      if pt < end {
        assert Blocks(z, end, n, owing, pt, fee).0 == end && Blocks(z, end, m, owing, pt, fee).0 == end;
      }
    } else {
      if z.maxFee > 0 && pt < end { CeilDivGrows(end - pt, end - start, z.block, z.rate); }
      ReachNotNegative(z.rate, end - start, z.block);
      ClockOutOfReach(z, end, n, m, owing, pt, fee, fee);
    }
  }

  lemma ReachNotNegative(rate: nat, a: int, b: int)
    requires 1 <= a && 1 <= b
    ensures 0 <= rate * CeilDiv(a, b)
  {
    CeilDivPositive(a, b);
    hide CeilDiv;
  }

  // ---------- One pass ----------

  // What the zone lemmas need of the zone k that contains the clock.
  predicate InZone(c: Context, s: State, k: nat) {
    && |s.table.bounds| == |s.table.zones| + 1
    && k < |s.table.zones|
    && s.pt < s.table.bounds[k + 1]
    && s.curMin == s.table.zones[k].minFee
    && s.curMax == s.table.zones[k].maxFee
    && ZoneShape(s.table.zones[k])
    && ZoneChargeable(s.table.zones[k])
    && MonotoneTable(c.params, s.table)
    && s.table.bounds[k] <= s.pt
  }

  lemma PerEntryInStep(c: Context, n: int, m: int, s: State, t: State, k: nat)
    requires n <= m && Related(s, t) && InZone(c, s, k)
    ensures InStep(PerEntry(c, n, s, k), PerEntry(c, m, t, k))
  {
    var z, end := s.table.zones[k], s.table.bounds[k + 1];
    var rate := if PaidAlready(c, s.motorcycleChecked, z, s.table.bounds[k], end) then 0 else z.rate;
    var fee := if WithinAllowance(z, Owing(s), n, s.pt) then 0 else rate;
    var later := if WithinAllowance(z, Owing(t), m, t.pt) then 0 else rate;
    hide PaidAlready, CloseZone;
    ClampMonotone(fee, later, s.curMin, s.curMax);
    CloseZoneInStep(n, m, LeaveEntry(c, s, end), LeaveEntry(c, t, end), fee, later);
  }

  // What the shorter run charges when a free block reaches its pay time is within what the longer one charges.
  lemma FreeStopInStep(m: int, s: State, t: State, x: nat, later: nat)
    requires !s.table.blockMode && s.table == t.table && s.dayFee <= t.dayFee && s.charge <= t.charge
    requires x <= Clamp(later, t.curMin, t.curMax)
    ensures FinalCharge(s.(dayFee := s.dayFee + x)) <= FinalCharge(Reached(CloseZone(m, t, later)))
  {
    var u := ChargeZone(t, later);
    ClampMonotone(s.dayFee + x, u.dayFee, s.table.dayMin, s.table.dayMax);
    CloseDayGrows(u);
    hide CloseDay, Clamp;
  }

  lemma CloseDayGrows(s: State)
    requires !s.table.blockMode
    ensures FinalCharge(s) <= FinalCharge(CloseDay(s))
  {
  }

  // The free blocks of the same zone in the two runs.
  predicate FreeAgrees(z: Zone, end: int, cutoff: bool, n: int, m: int, free: Free, later: Free) {
    && free.pt < end + DAY && later.pt < end + DAY
    && (if free.stop then free.fee <= later.fee else later == free)
    && (free.stop && z.maxFee > 0 ==> free.fee <= z.maxFee)
    && (free.stop ==> n <= free.pt)
  }

  // Where the charge blocks start: at the clock of the zone's entry if it has no free time.
  predicate StartsAt(p: Params, z: Zone, s: State, free: Free) {
    s.pt <= free.pt && (!free.stop ==> free.fee <= StartMoney(p, z)) && (StartsPlain(p, z) ==> free.pt == s.pt)
  }

  lemma StartInStep(c: Context, n: int, m: int, s: State, t: State, k: nat)
    requires n <= m && Related(s, t) && InZone(c, s, k) && s.table.zones[k].rateType == 1
    ensures var z, end, next := s.table.zones[k], s.table.bounds[k + 1], NextPerEntry(s.table, k);
            FreeAgrees(z, end, s.table.zoneCutoff, n, m,
                       StartOfZone(c.params, z, end, n, next, s), StartOfZone(c.params, z, end, m, next, t))
    ensures var free := StartOfZone(c.params, s.table.zones[k], s.table.bounds[k + 1], n, NextPerEntry(s.table, k), s);
            StartsAt(c.params, s.table.zones[k], s, free)
  {
    var z, end, next := s.table.zones[k], s.table.bounds[k + 1], NextPerEntry(s.table, k);
    assert z in s.table.zones && AddsWithinMax(c.params, z);
    if FreeApplies(c.params, z, s) {
      FreeInStep(c.params, z, end, n, m, next, s.table.zoneCutoff, s.pt);
    }
    FreeBounds(c.params, z, end, n, next, s.table.zoneCutoff, s.pt);
    FreeBounds(c.params, z, end, m, next, s.table.zoneCutoff, s.pt);
    hide FirstFree;
  }

  // The charge blocks move the clock and add to the fee.
  lemma ChargedBlocksOnly(c: Context, entry: int, n: int, s: State, k: nat, free: Free)
    requires |s.table.bounds| == |s.table.zones| + 1 && k < |s.table.zones|
    requires 1 <= s.table.zones[k].block <= DAY && free.pt < s.table.bounds[k + 1] + DAY
    ensures var (moved, fee) := ChargedBlocks(c, entry, n, s, k, free);
            moved == s.(pt := moved.pt, freed := moved.freed) && free.fee <= fee
  {
    BlocksBounds(s.table.zones[k], s.table.bounds[k + 1], n, Owing(s), free.pt, free.fee);
    hide Blocks, CutOff;
  }

  lemma AfterFreeStopInStep(c: Context, entry: int, n: int, m: int, s: State, t: State, k: nat, free: Free, later: Free)
    requires n <= m && Related(s, t) && InZone(c, s, k) && s.table.zones[k].rateType == 1
    requires FreeAgrees(s.table.zones[k], s.table.bounds[k + 1], s.table.zoneCutoff, n, m, free, later)
    requires free.stop
    ensures InStep(AfterFree(c, entry, n, s, k, free), AfterFree(c, entry, m, t, k, later))
  {
    if later.stop {
      hide ChargedBlocks, CloseZone, FinalCharge, Clamp;
      FinalChargeMonotone(s.(dayFee := s.dayFee + free.fee, pt := free.pt),
                          t.(dayFee := t.dayFee + later.fee, pt := later.pt));
    } else {
      ChargedBlocksOnly(c, entry, m, t, k, later);
      hide ChargedBlocks, CloseZone, FinalCharge, Clamp;
      var (v, g) := ChargedBlocks(c, entry, m, t, k, later);
      ClampAtLeast(free.fee, g, t.curMin, t.curMax);
      FreeStopInStep(m, s.(pt := free.pt), v, free.fee, g);
      CloseZoneOutcome(m, v, g);
    }
  }

  lemma CloseZoneOutcome(n: int, s: State, fee: nat)
    ensures var o := CloseZone(n, s, fee); o.Stop? || o.Next?
  {
  }

  lemma AfterFreeInStep(c: Context, entry: int, n: int, m: int, s: State, t: State, k: nat, free: Free)
    requires n <= m && Related(s, t) && InZone(c, s, k) && s.table.zones[k].rateType == 1
    requires !free.stop && free.pt < s.table.bounds[k + 1] + DAY && StartsAt(c.params, s.table.zones[k], s, free)
    requires !WithinAllowance(s.table.zones[k], Owing(s), n, s.pt)
    ensures InStep(AfterFree(c, entry, n, s, k, free), AfterFree(c, entry, m, t, k, free))
  {
    var z, end := s.table.zones[k], s.table.bounds[k + 1];
    assert z in s.table.zones;
    BlocksBounds(z, end, n, Owing(s), free.pt, free.fee);
    BlocksInStep(z, end, n, m, Owing(s), free.pt, free.fee, free.fee);
    if !s.table.zoneCutoff {
      assert AllowanceHarmless(c.params, s.table.zones[k], s.table.bounds[k + 1] - s.table.bounds[k]);
      HarmlessClock(c.params, z, s.table.bounds[k], end, n, m, Owing(s), free.pt, free.fee);
    }
    assert s.table.zoneCutoff ==> c.params.hourlyToPerEntryAllowance == 0 || !NextPerEntry(s.table, k);
    hide Blocks, AllowanceHarmless, AddsWithinMax, MonotoneTable, NextPerEntry, Clamp, Owing;
    var (p, f) := Blocks(z, end, n, Owing(s), free.pt, free.fee);
    var (q, g) := Blocks(z, end, m, Owing(s), free.pt, free.fee);
    var freed := s.freed || free.freed;
    var p2, q2 := CutOff(c, entry, n, s.table, k, p), CutOff(c, entry, m, s.table, k, q);
    CloseZoneInStep(n, m, s.(pt := p2, freed := freed), t.(pt := q2, freed := freed), f, g);
  }

  lemma HourlyInStep(c: Context, entry: int, n: int, m: int, s: State, t: State, k: nat)
    requires n <= m && Related(s, t) && InZone(c, s, k) && s.table.zones[k].rateType == 1
    ensures InStep(Hourly(c, entry, n, s, k), Hourly(c, entry, m, t, k))
  {
    var z, end, next := s.table.zones[k], s.table.bounds[k + 1], NextPerEntry(s.table, k);
    hide AfterFree, StartOfZone;
    if WithinAllowance(z, Owing(s), n, s.pt) {
      RelatedFinal(s, t);
      HourlyGrows(c, entry, m, t, k);
    } else {
      StartInStep(c, n, m, s, t, k);
      var free, later := StartOfZone(c.params, z, end, n, next, s), StartOfZone(c.params, z, end, m, next, t);
      if free.stop {
        AfterFreeStopInStep(c, entry, n, m, s, t, k, free, later);
      } else {
        AfterFreeInStep(c, entry, n, m, s, t, k, free);
      }
    }
  }

  lemma FinalChargeMonotone(s: State, t: State)
    requires !s.table.blockMode && s.table == t.table && s.dayFee <= t.dayFee && s.charge <= t.charge
    ensures FinalCharge(s) <= FinalCharge(t)
  {
    ClampMonotone(s.dayFee, t.dayFee, s.table.dayMin, s.table.dayMax);
  }

  lemma ClampAtLeast(x: nat, fee: nat, low: nat, high: nat)
    requires x <= fee && (high > 0 ==> x <= high)
    ensures x <= Clamp(fee, low, high)
  {
  }

  // The zone of the clock.
  lemma ZoneOfClock(c: Context, s: State) returns (k: nat, z: Zone)
    requires ZonesTariff(c) && Loaded(c, s)
    ensures |s.table.bounds| == |s.table.zones| + 1 && k < |s.table.zones| && z == s.table.zones[k]
    ensures s.pt < EndOf(s.table) && k == ZoneAt(s.table, s.pt)
    ensures s.table.bounds[k] <= s.pt < s.table.bounds[k + 1]
    ensures ZoneShape(z) && ZoneChargeable(z) && !s.table.blockMode && c.tables(s.pd) == Ok(s.table)
  {
    LoadedFacts(c, s);
    k := ZoneAt(s.table, s.pt);
    z := s.table.zones[k];
    assert c.tables(s.pd).value == s.table && z in s.table.zones;
  }

  lemma PassLoadedInStep(c: Context, entry: int, n: int, m: int, s: State, t: State)
    requires n <= m && MonotoneTariff(c) && Loaded(c, s) && Related(s, t)
    ensures var o, p := PassLoaded(c, entry, n, s), PassLoaded(c, entry, m, t);
            && (o.Grace? || o.Stop? || o.Next?)
            && (o.Grace? || InStep(o, p))
            && (p.Grace? ==> !s.noGrace)
  {
    var k, z := ZoneOfClock(c, s);
    assert MonotoneTable(c.params, s.table);
    var s', t' := s.(noGrace := true, curMin := z.minFee, curMax := z.maxFee),
                  t.(noGrace := true, curMin := z.minFee, curMax := z.maxFee);
    hide WellShaped, DayShape, PerEntry, Hourly, FinalCharge, ZonesTariff, MonotoneTable, ZoneAt;
    if z.rateType == 2 {
      PerEntryInStep(c, n, m, s', t', k);
    } else {
      HourlyInStep(c, entry, n, m, s', t', k);
    }
  }

  // A pass after grace has been considered goes on or stops.
  lemma PassKeeps(c: Context, entry: int, n: int, s: State)
    requires ZonesTariff(c) && Loaded(c, s)
    ensures var o := PassLoaded(c, entry, n, s);
            && (o.Grace? ==> !s.noGrace)
            && (o.Grace? || ((o.Stop? || o.Next?) && Reached(o).noGrace && Reached(o).table == s.table))
  {
    var k, z := ZoneOfClock(c, s);
    var t := s.(noGrace := true, curMin := z.minFee, curMax := z.maxFee);
    hide WellShaped, DayShape, PerEntry, Hourly, ZoneAt, ZonesTariff;
    if z.rateType == 2 {
      PerEntryKeeps(c, n, t, k);
    } else {
      HourlyKeeps(c, entry, n, t, k);
    }
  }

  lemma PerEntryKeeps(c: Context, n: int, s: State, k: nat)
    requires |s.table.bounds| == |s.table.zones| + 1 && k < |s.table.zones|
    ensures var o := PerEntry(c, n, s, k);
            (o.Stop? || o.Next?) && Reached(o).noGrace == s.noGrace && Reached(o).table == s.table
  {
  }

  lemma HourlyKeeps(c: Context, entry: int, n: int, s: State, k: nat)
    requires |s.table.bounds| == |s.table.zones| + 1 && k < |s.table.zones|
    requires 1 <= s.table.zones[k].block
    ensures var o := Hourly(c, entry, n, s, k);
            (o.Stop? || o.Next?) && Reached(o).noGrace == s.noGrace && Reached(o).table == s.table
  {
    hide StartOfZone, Blocks, CutOff;
  }

  // ---------- Whole runs ----------

  // A state after the first table is loaded, or the initial one.
  ghost predicate Underway(c: Context, n: int, s: State) {
    Ready(c, s) && s.pt <= n && !s.table.blockMode
  }

  lemma EnterLoaded(c: Context, entry: int, n: int, s: State)
    requires ZonesTariff(c) && Underway(c, n, s)
    ensures Enter(c, s).Ok?
    ensures var t := Enter(c, s).value;
            && Loaded(c, t) && !t.table.blockMode && t == s.(loaded := true, table := t.table)
            && FinalCharge(t) == FinalCharge(s)
            && Pass(c, entry, n, s) == PassLoaded(c, entry, n, t)
  {
    hide PassLoaded;
  }

  lemma {:induction false} RunGrows(c: Context, entry: int, n: int, s: State)
    requires ZonesTariff(c) && Underway(c, n, s) && s.noGrace
    ensures Run(c, entry, n, s).Ok? && FinalCharge(s) <= Run(c, entry, n, s).value
    decreases n - s.pt
  {
    hide ZonesTariff, PassLoaded, FinalCharge, Ready;
    EnterLoaded(c, entry, n, s);
    var t := Enter(c, s).value;
    LoadedWellShaped(c, n, s);
    PassGrows(c, entry, n, t);
    PassKeeps(c, entry, n, t);
    PassAdvances(c, entry, n, s);
    var o := Pass(c, entry, n, s);
    if o.Next? {
      RunGrows(c, entry, n, o.next);
    }
  }

  lemma LoadedWellShaped(c: Context, n: int, s: State)
    requires Underway(c, n, s)
    ensures Ready(c, s)
  {
  }

  /** Two runs in step: the later pay time never costs less, and no run ends in an error code. */
  lemma {:induction false} RunInStep(c: Context, entry: int, n: int, m: int, s: State, t: State)
    requires MonotoneTariff(c) && Underway(c, n, s) && Underway(c, m, t) && n <= m && Related(s, t)
    ensures Run(c, entry, n, s).Ok? && Run(c, entry, m, t).Ok?
    ensures Run(c, entry, n, s).value <= Run(c, entry, m, t).value
    decreases n - s.pt
  {
    assert ZonesTariff(c);
    EnterLoaded(c, entry, n, s);
    EnterLoaded(c, entry, m, t);
    hide MonotoneTariff, ZonesTariff, PassLoaded, FinalCharge, Ready;
    LoadedWellShaped(c, n, s);
    LoadedWellShaped(c, m, t);
    var s', t' := Enter(c, s).value, Enter(c, t).value;
    assert Related(s', t');
    PassLoadedInStep(c, entry, n, m, s', t');
    PassKeeps(c, entry, m, t');
    PassAdvances(c, entry, n, s);
    PassAdvances(c, entry, m, t);
    var o, p := Pass(c, entry, n, s), Pass(c, entry, m, t);
    if o.Next? {
      PassKeeps(c, entry, n, s');
      RunInStep(c, entry, n, m, o.next, p.next);
    } else if p.Next? {
      RunGrows(c, entry, m, p.next);
    }
  }

  lemma EffectiveMinuteMonotone(entry: nat, pay: nat, later: nat)
    requires pay <= later
    ensures EffectiveMinute(entry, pay) <= EffectiveMinute(entry, later)
    ensures entry / 60 <= pay / 60 ==> entry / 60 <= EffectiveMinute(entry, pay)
  {
  }

  lemma RoundMonotone(x: nat, y: nat, mode: int)
    requires x <= y && 0 <= mode <= 3
    ensures Round(x, mode) <= Round(y, mode)
  {
  }

  /** Parking longer never costs less: for a fixed entry and a tariff of the right kind, every later pay time has a fee
      at least as high, to the second and after rounding, and none of them ends in an error code. */
  lemma ParkingLongerNeverCostsLess(c: Context, entry: nat, pay: nat, later: nat, noGrace: bool)
    requires MonotoneTariff(c) && pay <= later
    ensures ParkingFee(c, entry, pay, noGrace).Ok? && ParkingFee(c, entry, later, noGrace).Ok?
    ensures ParkingFee(c, entry, pay, noGrace).value <= ParkingFee(c, entry, later, noGrace).value
  {
    if entry / 60 <= later / 60 {
      var first := entry / 60;
      var s := Initial(first, noGrace);
      InitialReady(c, first, noGrace);
      EffectiveMinuteMonotone(entry, pay, later);
      EffectiveMinuteMonotone(entry, later, later);
      var n, m := EffectiveMinute(entry, pay), EffectiveMinute(entry, later);
      hide MonotoneTariff, Ready, EffectiveMinute;
      if entry / 60 <= pay / 60 {
        RunInStep(c, first, n, m, s, s);
        RoundMonotone(Charge(c, first, n, noGrace).value, Charge(c, first, m, noGrace).value, c.params.roundingMode);
      } else {
        RunInStep(c, first, m, m, s, s);
      }
    }
  }
}
