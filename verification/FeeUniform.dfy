/**
 The whole walk on the plainest tariff: one hourly rate on all zones of all days. However the zones and days divide the
 stay, it costs the rate for each charge block begun.
 */
module FeeUniform {
  import opened Tariff
  import opened FeeEngine
  import opened ZoneCharge

  predicate UniformZone(z: Zone, rate: nat, block: nat) {
    && z.rateType == 1 && z.rate == rate && z.block == block
    && z.grace == z.minFee == z.maxFee == z.free1 == z.allowance == 0
  }

  predicate UniformTable(table: Day, rate: nat, block: nat) {
    && !table.blockMode && table.dayMin == table.dayMax == 0 && !table.zoneCutoff
    && forall z :: z in table.zones ==> UniformZone(z, rate, block)
  }

  /** Every zone of every day charges the same rate for the same block, without limits, free time or cutoff. */
  ghost predicate UniformTariff(c: Context, rate: nat, block: nat) {
    && Chargeable(c) && 1 <= block
    && forall day {:trigger c.tables(day)} :: UniformTable(c.tables(day).value, rate, block)
  }

  /** At least one block, then one more for each that has begun. */
  function BlocksOfStay(minutes: int, block: nat): int
    requires 1 <= block
  {
    if minutes <= 0 then 1 else CeilDiv(minutes, block)
  }

  function Total(s: State): nat {
    s.charge + s.dayFee
  }

  predicate NoLimits(s: State) {
    s.table.dayMin == s.table.dayMax == 0 && !s.table.blockMode
  }

  lemma CeilDivIs(a: int, b: int, q: int)
    requires 1 <= b && b * q - b < a <= b * q
    ensures CeilDiv(a, b) == q
  {
    QuotientIs(a + b - 1, b, q);
  }

  lemma CeilDivBounds(a: int, b: int)
    requires 1 <= b
    ensures b * CeilDiv(a, b) - b < a <= b * CeilDiv(a, b)
  {
    var x := a + b - 1;
    assert x == b * (x / b) + x % b;
  }

  // The blocks begun before a while, and those after the last of them ends, are those of the whole.
  lemma CeilDivSplits(minutes: int, part: int, block: nat)
    requires 1 <= block && 1 <= part <= minutes
    ensures var count := CeilDiv(part, block);
            CeilDiv(minutes, block) == (if block * count < minutes then count + CeilDiv(minutes - block * count, block) else count)
  {
    var count := CeilDiv(part, block);
    var rest := CeilDiv(minutes - block * count, block);
    CeilDivBounds(part, block);
    CeilDivBounds(minutes - block * count, block);
    hide CeilDiv;
    if block * count < minutes {
      assert block * (count + rest) == block * count + block * rest;
      CeilDivIs(minutes, block, count + rest);
    } else {
      CeilDivIs(minutes, block, count);
    }
  }

  // The blocks charged in one zone, and those after it, are those of the stay.
  lemma BlocksAdd(block: nat, end: int, n: int, pt: int)
    requires 1 <= block && pt < end && pt <= n
    ensures BlocksOfStay(n - pt, block)
         == (var count := BlocksBegun(block, end, n, pt);
             if pt + block * count < n then count + BlocksOfStay(n - pt - block * count, block) else count)
  {
    if pt < n {
      var until := if n < end then n else end;
      CeilDivSplits(n - pt, until - pt, block);
      hide CeilDiv;
    }
  }

  // What a state is after a zone that ends at end.
  predicate ZoneCharged(n: int, s: State, t: State, end: int, rate: nat, block: nat)
    requires 1 <= block
  {
    && s.pt < end && NoLimits(t)
    && t.pt == s.pt + block * BlocksBegun(block, end, n, s.pt)
    && Total(t) == Total(s) + rate * BlocksBegun(block, end, n, s.pt)
  }

  lemma PassUniform(c: Context, entry: int, n: int, s: State, rate: nat, block: nat) returns (t: State, end: int)
    requires UniformTariff(c, rate, block) && Ready(c, s) && s.pt <= n
    ensures Pass(c, entry, n, s) == GoOn(n, t) && ZoneCharged(n, s, t, end, rate, block)
  {
    hide WellShaped, DayShape, BlocksBegun, PassLoaded, GoOn, UniformTable;
    assert c.tables(s.pd).Ok?;
    var u := Enter(c, s).value;
    assert u.table == c.tables(s.pd).value && UniformTable(u.table, rate, block);
    t, end := PassLoadedUniform(c, entry, n, u, rate, block);
  }

  lemma PassLoadedUniform(c: Context, entry: int, n: int, s: State, rate: nat, block: nat) returns (t: State, end: int)
    requires 1 <= block && Loaded(c, s) && UniformTable(s.table, rate, block)
    ensures |s.table.bounds| == |s.table.zones| + 1 && 1 <= |s.table.zones| && s.pt < EndOf(s.table)
    ensures PassLoaded(c, entry, n, s) == GoOn(n, t) && ZoneCharged(n, s, t, end, rate, block)
  {
    LoadedFacts(c, s);
    assert |s.table.bounds| == |s.table.zones| + 1 && 1 <= |s.table.zones|;
    hide Ready, WellShaped, DayShape, BlocksBegun, Blocks, Hourly, PerEntry, GoOn;
    var k := ZoneAt(s.table, s.pt);
    var z := s.table.zones[k];
    end := s.table.bounds[k + 1];
    assert z in s.table.zones && UniformZone(z, rate, block);
    UnlimitedZone(z, end, n, Owing(s), s.pt, 0);
    t := UniformHourly(c, entry, n, s.(noGrace := true, curMin := 0, curMax := 0), k, BlocksBegun(block, end, n, s.pt));
  }

  lemma UniformHourly(c: Context, entry: int, n: int, s: State, k: nat, count: nat) returns (t: State)
    requires |s.table.bounds| == |s.table.zones| + 1 && k < |s.table.zones|
    requires UniformZone(s.table.zones[k], s.table.zones[k].rate, s.table.zones[k].block) && 1 <= s.table.zones[k].block
    requires s.curMin == s.curMax == 0 && NoLimits(s) && !s.table.zoneCutoff
    requires var z := s.table.zones[k];
             Blocks(z, s.table.bounds[k + 1], n, Owing(s), s.pt, 0) == (s.pt + z.block * count, z.rate * count)
    ensures Hourly(c, entry, n, s, k) == GoOn(n, t) && NoLimits(t)
    ensures t.pt == s.pt + s.table.zones[k].block * count && Total(t) == Total(s) + s.table.zones[k].rate * count
  {
    hide Blocks;
    var z := s.table.zones[k];
    t := CloseDay(ChargeZone(s.(pt := s.pt + z.block * count), z.rate * count));
  }

  // What is charged so far, and the blocks of the time that is left.
  function Expected(s: State, n: int, rate: nat, block: nat): int
    requires 1 <= block
  {
    Total(s) + rate * BlocksOfStay(n - s.pt, block)
  }

  lemma ExpectedKept(n: int, s: State, t: State, end: int, rate: nat, block: nat)
    requires 1 <= block && ZoneCharged(n, s, t, end, rate, block) && s.pt <= n
    ensures Expected(s, n, rate, block) == if t.pt < n then Expected(t, n, rate, block) else FinalCharge(t)
  {
    BlocksAdd(block, end, n, s.pt);
    var count, rest := BlocksBegun(block, end, n, s.pt), BlocksOfStay(n - t.pt, block);
    assert n - t.pt == n - s.pt - block * count;
    assert FinalCharge(t) == Total(t);
    hide BlocksBegun, BlocksOfStay, FinalCharge, Total;
    assert rate * (count + rest) == rate * count + rate * rest;
  }

  /** The run from a state adds the blocks of the time that is left. */
  lemma {:induction false} RunUniform(c: Context, entry: int, n: int, s: State, rate: nat, block: nat)
    requires UniformTariff(c, rate, block) && Ready(c, s) && NoLimits(s) && s.pt <= n
    ensures 1 <= block && Run(c, entry, n, s) == Ok(Expected(s, n, rate, block))
    decreases n - s.pt
  {
    assert 1 <= block;
    hide Pass, Ready, UniformTariff, FinalCharge, Expected;
    var t, end := PassUniform(c, entry, n, s, rate, block);
    PassAdvances(c, entry, n, s);
    ExpectedKept(n, s, t, end, rate, block);
    assert NoLimits(t);
    hide ZoneCharged, NoLimits;
    if t.pt < n { RunUniform(c, entry, n, t, rate, block); }
  }

  /** A uniform hourly tariff charges exactly its rate for each block begun between entry and effective pay time, whatever
      zones and days the stay crosses. */
  lemma UniformStayExact(c: Context, entry: int, n: int, noGrace: bool, rate: nat, block: nat)
    requires UniformTariff(c, rate, block) && entry <= n
    ensures Charge(c, entry, n, noGrace) == Ok(rate * BlocksOfStay(n - entry, block))
  {
    InitialReady(c, entry, noGrace);
    RunUniform(c, entry, n, Initial(entry, noGrace), rate, block);
  }
}
