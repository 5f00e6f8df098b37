/**
 In 24-hour mode, too, parking longer never costs less: when every day charges the same 24-hour fee and the zones alone
 would be monotone.
 */
module FeeDayBlocksMonotone {
  import opened Tariff
  import opened FeeEngine
  import opened FeeMonotone
  import opened FeeDayBlocks

  ghost predicate MonotoneDayBlocks(c: Context, fee: nat) {
    DayBlockTariff(c, fee) && MonotoneTariff(ZonesOnlyTariff(c))
  }

  lemma ChargeableShape(c: Context)
    requires MonotoneTariff(c)
    ensures WellShaped(c)
  {
  }

  // With the same number of full blocks, the rest does not cost less.
  lemma RestMonotone(c: Context, entry: int, n: int, m: int, noGrace: bool)
    requires MonotoneTariff(ZonesOnlyTariff(c)) && entry <= n <= m && FullBlocks(entry, n) == FullBlocks(entry, m)
    ensures WellShaped(ZonesOnlyTariff(c))
    ensures RestCharge(c, entry, n, noGrace).Ok? && RestCharge(c, entry, m, noGrace).Ok?
    ensures RestCharge(c, entry, n, noGrace).value <= RestCharge(c, entry, m, noGrace).value
  {
    hide MonotoneTariff, Ready, WellShaped, ZonesOnlyTariff, FullBlocks, Run;
    var z, k := ZonesOnlyTariff(c), FullBlocks(entry, n);
    ChargeableShape(z);
    var rest := entry + k * DAY;
    var s := Initial(rest, noGrace || k > 0);
    InitialReady(z, rest, noGrace || k > 0);
    if k == 0 || rest < n {
      RunInStep(z, entry, n, m, s, s);
    } else if rest < m {
      RunInStep(z, entry, m, m, s, s);
    }
  }

  lemma FullBlocksGrow(entry: int, n: int, m: int)
    requires entry <= n <= m
    ensures 0 <= FullBlocks(entry, n) <= FullBlocks(entry, m)
  {
  }

  lemma BlocksCover(fee: nat, b: int, b': int)
    requires b < b'
    ensures fee * (b + 1) <= fee * b'
  {
  }

  lemma ChargeMonotone(c: Context, entry: int, n: int, m: int, fee: nat, noGrace: bool)
    requires MonotoneDayBlocks(c, fee) && entry <= n <= m
    ensures WellShaped(c) && Charge(c, entry, n, noGrace).Ok? && Charge(c, entry, m, noGrace).Ok?
    ensures Charge(c, entry, n, noGrace).value <= Charge(c, entry, m, noGrace).value
  {
    assert WellShaped(c);
    hide DayBlockTariff, MonotoneTariff, ZonesOnlyTariff, RestCharge, FullBlocks, Charge, WellShaped;
    DayBlocksExact(c, entry, n, fee, noGrace);
    DayBlocksExact(c, entry, m, fee, noGrace);
    FullBlocksGrow(entry, n, m);
    var b, b' := FullBlocks(entry, n), FullBlocks(entry, m);
    if b == b' {
      RestMonotone(c, entry, n, m, noGrace);
    } else {
      BlocksCover(fee, b, b');
    }
  }

  /** Within the first 24 hours the stay costs what the zones alone charge, up to the fee: there the fee of 24-hour days falls
      exactly where that does. */
  lemma FirstBlock(c: Context, entry: int, n: int, fee: nat, noGrace: bool)
    requires DayBlockTariff(c, fee) && entry <= n && FullBlocks(entry, n) == 0
    ensures WellShaped(c) && WellShaped(ZonesOnlyTariff(c))
    ensures Charge(c, entry, n, noGrace).Ok? && Charge(ZonesOnlyTariff(c), entry, n, noGrace).Ok?
    ensures Charge(c, entry, n, noGrace).value == Min(fee, Charge(ZonesOnlyTariff(c), entry, n, noGrace).value)
  {
    DayBlocksExact(c, entry, n, fee, noGrace);
    hide DayBlockTariff, ZonesOnlyTariff, WellShaped, Run;
    InitialReady(ZonesOnlyTariff(c), entry, noGrace);
    assert RestCharge(c, entry, n, noGrace) == Charge(ZonesOnlyTariff(c), entry, n, noGrace);
  }

  /** In 24-hour mode parking longer never costs less either, to the second and after rounding. */
  lemma ParkingLongerInBlocks(c: Context, entry: nat, pay: nat, later: nat, fee: nat, noGrace: bool)
    requires MonotoneDayBlocks(c, fee) && pay <= later
    ensures WellShaped(c)
    ensures ParkingFee(c, entry, pay, noGrace).Ok? && ParkingFee(c, entry, later, noGrace).Ok?
    ensures ParkingFee(c, entry, pay, noGrace).value <= ParkingFee(c, entry, later, noGrace).value
  {
    if entry / 60 <= later / 60 {
      var first := entry / 60;
      EffectiveMinuteMonotone(entry, pay, later);
      EffectiveMinuteMonotone(entry, later, later);
      var n, m := EffectiveMinute(entry, pay), EffectiveMinute(entry, later);
      if entry / 60 <= pay / 60 {
        ChargeMonotone(c, first, n, m, fee, noGrace);
        hide MonotoneDayBlocks, EffectiveMinute, WellShaped, Charge, Round;
        RoundMonotone(Charge(c, first, n, noGrace).value, Charge(c, first, m, noGrace).value, c.params.roundingMode);
      } else {
        ChargeMonotone(c, first, m, m, fee, noGrace);
      }
    }
  }
}
