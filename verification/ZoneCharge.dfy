/**
 The block-by-block loop of an hourly zone refines a closed form: the number of charge blocks begun between the clock
 and the earlier of the zone end and the pay time, times the rate, within the zone limits.
 */
module ZoneCharge {
  import opened Tariff
  import opened FeeEngine

  function CeilDiv(a: int, b: int): int
    requires 1 <= b
  {
    (a + b - 1) / b
  }

  /** The charge blocks begun before the zone end and the pay time: at least one in a zone that has not ended, even
      when no time is left to pay for. */
  function BlocksBegun(block: nat, end: int, n: int, pt: int): (count: nat)
    requires 1 <= block
    ensures count == 0 <==> end <= pt
  {
    if end <= pt then 0
    else
      var until := if n < end then n else end;
      if until <= pt then 1 else
        CeilDivPositive(until - pt, block);
        CeilDiv(until - pt, block)
  }

  lemma CeilDivPositive(a: int, b: int)
    requires 1 <= a && 1 <= b
    ensures 1 <= CeilDiv(a, b)
    ensures CeilDiv(a, b) == 1 <==> a <= b
    ensures a > b ==> CeilDiv(a, b) == 1 + CeilDiv(a - b, b)
  {
    if a <= b {
      assert (a + b - 1) / b == 1 by { QuotientIs(a + b - 1, b, 1); }
    } else {
      var k := (a - 1) / b;
      assert (a + b - 1) / b == 1 + k by { QuotientIs(a + b - 1, b, 1 + k); }
    }
  }

  lemma QuotientIs(x: int, b: int, q: int)
    requires 1 <= b && b * q <= x < b * q + b
    ensures x / b == q
  {
    var d := x / b;
    assert x == b * d + x % b;
    assert d + 1 <= q ==> b * (d + 1) <= b * q;
    assert q + 1 <= d ==> b * (q + 1) <= b * d;
  }

  lemma OneBlockMore(block: nat, end: int, n: int, pt: int)
    requires 1 <= block && pt < end
    ensures var count := BlocksBegun(block, end, n, pt);
            if pt + block < n && pt + block < end then count == 1 + BlocksBegun(block, end, n, pt + block)
            else count == 1
  {
    var until := if n < end then n else end;
    if pt < until {
      CeilDivPositive(until - pt, block);
    }
  }

  lemma OutsideZone(block: nat, end: int, n: int, pt: int)
    requires 1 <= block && end <= pt
    ensures BlocksBegun(block, end, n, pt) == 0
  {
  }

  lemma Distribute(rate: nat, count: nat)
    ensures rate * (1 + count) == rate + rate * count
    ensures 0 <= rate * count
  {
  }

  // Where the loop leaves the clock and the unclamped fee when no zone limit ends it early.
  lemma {:induction false} UnlimitedZone(z: Zone, end: int, n: int, owing: bool, pt: int, fee: nat)
    requires 1 <= z.block && z.allowance == 0 && z.maxFee == 0
    ensures var count := BlocksBegun(z.block, end, n, pt);
            Blocks(z, end, n, owing, pt, fee) == (pt + z.block * count, fee + z.rate * count)
    decreases end - pt
  {
    hide BlocksBegun;
    if end <= pt {
      OutsideZone(z.block, end, n, pt);
    } else {
      OneBlockMore(z.block, end, n, pt);
      if pt + z.block < n {
        UnlimitedZone(z, end, n, owing, pt + z.block, fee + z.rate);
        var rest := BlocksBegun(z.block, end, n, pt + z.block);
        Distribute(z.block, rest);
        Distribute(z.rate, rest);
      }
    }
  }

  /** The loop refines the closed form: the clamped fee is that of the blocks begun, and leaving early at the zone
      maximum never changes it. */
  lemma {:induction false} ZoneClosedForm(z: Zone, end: int, n: int, owing: bool, pt: int, fee: nat)
    requires 1 <= z.block && z.allowance == 0
    ensures Clamp(Blocks(z, end, n, owing, pt, fee).1, z.minFee, z.maxFee)
         == Clamp(fee + z.rate * BlocksBegun(z.block, end, n, pt), z.minFee, z.maxFee)
    decreases end - pt
  {
    hide BlocksBegun;
    if end <= pt {
      OutsideZone(z.block, end, n, pt);
    } else {
      OneBlockMore(z.block, end, n, pt);
      var count := BlocksBegun(z.block, end, n, pt);
      if z.maxFee > 0 && fee + z.rate >= z.maxFee {
        Distribute(z.rate, count - 1);
      } else if pt + z.block < n {
        ZoneClosedForm(z, end, n, owing, pt + z.block, fee + z.rate);
        var rest := BlocksBegun(z.block, end, n, pt + z.block);
        Distribute(z.rate, rest);
      }
    }
  }

  // ---------- Free time ----------

  function FreeLength(z: Zone, i: int): nat {
    if i == 1 then z.free1 else if i == 2 then z.free2 else z.free3
  }

  function FreeAdd(z: Zone, i: int): nat {
    if i == 1 then z.add1 else if i == 2 then z.add2 else z.add3
  }

  /** The first free block is always granted; a later one only if the station has it, the pay time is not reached, and the
      clock is still in the zone, or has run over into an hourly one where zone cutoff is off. */
  predicate Granted(p: Params, end: int, n: int, nextPerEntry: bool, cutoff: bool, i: int, clock: int) {
    i == 1 || (i <= p.firstHour && clock < n && (clock < end || (!cutoff && !nextPerEntry)))
  }

  // The clock and the fee after the free blocks from the i-th on, and how many blocks have been granted then.
  function FreeSteps(p: Params, z: Zone, end: int, n: int, nextPerEntry: bool, cutoff: bool,
                     i: int, clock: int, fee: nat): (int, nat, int)
    decreases 4 - i
  {
    if i > 3 || !Granted(p, end, n, nextPerEntry, cutoff, i, clock) then (clock, fee, i - 1)
    else
      var after := clock + FreeLength(z, i);
      FreeSteps(p, z, end, n, nextPerEntry, cutoff, i + 1, if cutoff && end < after then end else after,
                fee + FreeAdd(z, i))
  }

  // The nested branches agree with a walk of at most three blocks.
  predicate FreeAsSteps(p: Params, z: Zone, end: int, n: int, nextPerEntry: bool, cutoff: bool, pt: int) {
    var free := FirstFree(p, z, end, n, nextPerEntry, cutoff, pt);
    var (clock, fee, granted) := FreeSteps(p, z, end, n, nextPerEntry, cutoff, 1, pt, 0);
    && free.pt == clock && free.fee == fee
    && (free.stop <==> n <= clock)
    && (free.freed <==> clock < n && p.firstHourMode == 1 && (end <= clock || granted == 3))
  }

  lemma FreeStepsUnfold(p: Params, z: Zone, end: int, n: int, nextPerEntry: bool, cutoff: bool, i: int, clock: int, fee: nat)
    requires i <= 3
    ensures FreeSteps(p, z, end, n, nextPerEntry, cutoff, i, clock, fee)
         == if !Granted(p, end, n, nextPerEntry, cutoff, i, clock) then (clock, fee, i - 1)
            else
              var after := clock + FreeLength(z, i);
              FreeSteps(p, z, end, n, nextPerEntry, cutoff, i + 1, if cutoff && end < after then end else after,
                        fee + FreeAdd(z, i))
    ensures FreeSteps(p, z, end, n, nextPerEntry, cutoff, 4, clock, fee) == (clock, fee, 3)
  {
  }

  // With zone cutoff: the first block ends the zone, or it does not.
  lemma FreeStepsCutAtOnce(p: Params, z: Zone, end: int, n: int, nextPerEntry: bool, pt: int)
    requires pt < end <= pt + z.free1
    ensures FreeAsSteps(p, z, end, n, nextPerEntry, true, pt)
  {
    FreeStepsUnfold(p, z, end, n, nextPerEntry, true, 1, pt, 0);
    FreeStepsUnfold(p, z, end, n, nextPerEntry, true, 2, end, z.add1);
    hide FreeSteps;
  }

  lemma FreeStepsCutLater(p: Params, z: Zone, end: int, n: int, nextPerEntry: bool, pt: int)
    requires pt + z.free1 < end
    ensures FreeAsSteps(p, z, end, n, nextPerEntry, true, pt)
  {
    assert FreeLength(z, 1) == z.free1 && FreeLength(z, 2) == z.free2 && FreeLength(z, 3) == z.free3;
    assert FreeAdd(z, 1) == z.add1 && FreeAdd(z, 2) == z.add2 && FreeAdd(z, 3) == z.add3;
    FreeStepsUnfold(p, z, end, n, nextPerEntry, true, 1, pt, 0);
    var clock1 := pt + z.free1;
    FreeStepsUnfold(p, z, end, n, nextPerEntry, true, 2, clock1, z.add1);
    var clock2 := if end < clock1 + z.free2 then end else clock1 + z.free2;
    FreeStepsUnfold(p, z, end, n, nextPerEntry, true, 3, clock2, z.add1 + z.add2);
    var clock3 := if end < clock2 + z.free3 then end else clock2 + z.free3;
    FreeStepsUnfold(p, z, end, n, nextPerEntry, true, 3, clock3, z.add1 + z.add2 + z.add3);
    hide FreeSteps, FreeLength, FreeAdd;
    var steps := FreeSteps(p, z, end, n, nextPerEntry, true, 1, pt, 0);
    if !(clock1 < n && 2 <= p.firstHour) {
      assert steps == (clock1, z.add1, 1);
    } else if !(clock2 < n && 3 <= p.firstHour && clock2 < end) {
      assert steps == (clock2, z.add1 + z.add2, 2);
    } else {
      assert steps == (clock3, z.add1 + z.add2 + z.add3, 3);
    }
  }

  lemma FreeStepsOpen(p: Params, z: Zone, end: int, n: int, nextPerEntry: bool, pt: int)
    requires pt < end
    ensures FreeAsSteps(p, z, end, n, nextPerEntry, false, pt)
  {
    FreeStepsUnfold(p, z, end, n, nextPerEntry, false, 1, pt, 0);
    var clock1 := pt + z.free1;
    FreeStepsUnfold(p, z, end, n, nextPerEntry, false, 2, clock1, z.add1);
    var clock2 := clock1 + z.free2;
    FreeStepsUnfold(p, z, end, n, nextPerEntry, false, 3, clock2, z.add1 + z.add2);
    FreeStepsUnfold(p, z, end, n, nextPerEntry, false, 3, clock2 + z.free3, z.add1 + z.add2 + z.add3);
    hide FreeSteps;
  }

  /** The nested branches for the free time refine a walk of at most three blocks. The free time counts as used up only if it
      left the zone or all three blocks were granted. */
  lemma FreeTimeIsSteps(p: Params, z: Zone, end: int, n: int, nextPerEntry: bool, cutoff: bool, pt: int)
    requires pt < end
    ensures var free := FirstFree(p, z, end, n, nextPerEntry, cutoff, pt);
            var (clock, fee, granted) := FreeSteps(p, z, end, n, nextPerEntry, cutoff, 1, pt, 0);
            && free.pt == clock && free.fee == fee
            && (free.stop <==> n <= clock)
            && (free.freed <==> clock < n && p.firstHourMode == 1 && (end <= clock || granted == 3))
  {
    if cutoff && end <= pt + z.free1 {
      FreeStepsCutAtOnce(p, z, end, n, nextPerEntry, pt);
    } else if cutoff {
      FreeStepsCutLater(p, z, end, n, nextPerEntry, pt);
    } else {
      FreeStepsOpen(p, z, end, n, nextPerEntry, pt);
    }
    hide FreeSteps, FirstFree;
  }
}
