/**
 What the other parts of the walk charge: grace, per-entry zones, the allowance after a charge, and rounding.
 */
module FeeStays {
  import opened Tariff
  import opened FeeEngine
  import opened FeeLimits
  import FeeMonotone

  // The zone of the table that contains a minute.
  predicate Contains(table: Day, k: int, minute: int) {
    |table.bounds| == |table.zones| + 1 && 0 <= k < |table.zones| && table.bounds[k] <= minute < table.bounds[k + 1]
  }

  // ---------- Grace ----------

  predicate GraceZone(z: Zone, minutes: int) {
    (z.rateType == 1 || z.rateType == 2) && 0 < z.grace && minutes <= z.grace
  }

  /** The stay is no longer than the grace of the zone it is entered in, and no 24-hour block is full. */
  ghost predicate WithinGrace(c: Context, entry: int, n: int) {
    c.tables(entry / DAY).Ok? &&
    var table := c.tables(entry / DAY).value;
    && !(table.blockMode && n / 60 - entry / 60 >= 24)
    && exists k :: Contains(table, k, entry) && GraceZone(table.zones[k], n - entry)
  }

  // A pass that is not free by grace does not depend on whether grace is considered.
  lemma PassAfterGrace(c: Context, entry: int, n: int)
    requires WellShaped(c) && entry <= n && !WithinGrace(c, entry, n)
    ensures Ready(c, Initial(entry, false)) && Ready(c, Initial(entry, true))
    ensures Pass(c, entry, n, Initial(entry, false)) == Pass(c, entry, n, Initial(entry, true))
  {
    InitialReady(c, entry, false);
    InitialReady(c, entry, true);
    if c.tables(entry / DAY).Ok? {
      LookupFindsTheZone(c, Initial(entry, false));
      hide WellShaped, DayShape, Hourly, PerEntry;
      var table := c.tables(entry / DAY).value;
      var k := ZoneAt(table, entry);
      assert Contains(table, k, entry);
      hide ZoneAt;
    }
  }

  /** Grace makes a stay free exactly when it is no longer than the grace of its first zone; any other stay costs what it does
      without grace. */
  lemma GraceExactly(c: Context, entry: int, n: int)
    requires WellShaped(c) && entry <= n
    ensures Charge(c, entry, n, false) == if WithinGrace(c, entry, n) then Ok(0) else Charge(c, entry, n, true)
  {
    if WithinGrace(c, entry, n) {
      GraceIsFree(c, entry, n);
    } else {
      PassAfterGrace(c, entry, n);
      hide WellShaped, Ready, Pass, WithinGrace;
    }
  }

  lemma GraceIsFree(c: Context, entry: int, n: int)
    requires WellShaped(c) && entry <= n && WithinGrace(c, entry, n)
    ensures Charge(c, entry, n, false) == Ok(0)
  {
    var s := Initial(entry, false);
    InitialReady(c, entry, false);
    LookupFindsTheZone(c, s);
    var table := c.tables(entry / DAY).value;
    var k :| Contains(table, k, entry) && GraceZone(table.zones[k], n - entry);
    assert k == ZoneAt(table, entry);
    hide WellShaped, DayShape, ZoneAt;
    assert Pass(c, entry, n, s) == Grace;
    hide Ready;
  }

  // ---------- Per-entry zones ----------

  /** The charge of entering: nothing while a charge still has its allowance, nor for a motorcycle that has paid in the zone and
      was not looked up before. */
  ghost predicate EntersFor(c: Context, n: int, s: State, z: Zone, start: int, end: int, fee: nat) {
    var allowed := z.allowance > 0 && n - s.pt <= z.allowance && (s.charge > 0 || s.dayFee > 0);
    var paid := c.params.motorcyclePerDay > 0 && c.transType == 2 && !s.motorcycleChecked && c.hasPaid(start, end);
    fee == if allowed || paid then 0 else z.rate
  }

  // Where the clock leaves the zone: at its end, or after the station's allowance if that is later.
  function LeavesAt(p: Params, pt: int, end: int): int {
    if p.perEntryAllowance > 0 && end < pt + p.perEntryAllowance then pt + p.perEntryAllowance else end
  }

  /** The pass over a per-entry zone: the charge of entering under the zone's limits, the clock, and the one lookup. */
  lemma EntryPassExact(c: Context, n: int, s: State, k: nat) returns (fee: nat, zoneFee: nat)
    requires Contains(s.table, k, s.pt)
    ensures var z, start, end := s.table.zones[k], s.table.bounds[k], s.table.bounds[k + 1];
            && EntersFor(c, n, s, z, start, end, fee) && IsLimited(zoneFee, fee, s.curMin, s.curMax)
            && PerEntry(c, n, s, k)
               == GoOn(n, CloseDay(s.(pt := LeavesAt(c.params, s.pt, end), dayFee := s.dayFee + zoneFee,
                                      motorcycleChecked := s.motorcycleChecked
                                                           || (c.params.motorcyclePerDay > 0 && c.transType == 2))))
  {
    EntersForFee(c, n, s, k);
    fee := EntryFee(c, n, s, k);
    zoneFee := Clamp(fee, s.curMin, s.curMax);
    ClampLimits(fee, s.curMin, s.curMax);
    EntryLeft(c, s, s.table.bounds[k + 1]);
    hide Clamp, IsLimited, CloseDay, EntryFee, EntersFor, LeaveEntry, LeavesAt, GoOn;
  }

  lemma EntryLeft(c: Context, s: State, end: int)
    ensures LeaveEntry(c, s, end)
         == s.(pt := LeavesAt(c.params, s.pt, end),
               motorcycleChecked := s.motorcycleChecked || (c.params.motorcyclePerDay > 0 && c.transType == 2))
  {
  }

  lemma EntersForFee(c: Context, n: int, s: State, k: nat)
    requires Contains(s.table, k, s.pt)
    ensures EntersFor(c, n, s, s.table.zones[k], s.table.bounds[k], s.table.bounds[k + 1], EntryFee(c, n, s, k))
  {
  }

  /** A stay inside one per-entry zone, or that ends within the station's allowance after it, costs the entry rate under the
      zone's limits and then the day's; a motorcycle that has paid in the zone enters free. */
  lemma EntryStayExact(c: Context, entry: int, n: int, noGrace: bool, table: Day, k: nat)
    returns (fee: nat, zoneFee: nat, charge: nat)
    requires WellShaped(c) && c.tables(entry / DAY) == Ok(table) && !table.blockMode && Contains(table, k, entry)
    requires table.zones[k].rateType == 2 && entry < n <= LeavesAt(c.params, entry, table.bounds[k + 1])
    requires noGrace || !WithinGrace(c, entry, n)
    ensures Charge(c, entry, n, noGrace) == Ok(charge)
    ensures var z, start, end := table.zones[k], table.bounds[k], table.bounds[k + 1];
            var paid := c.params.motorcyclePerDay > 0 && c.transType == 2 && c.hasPaid(start, end);
            && fee == (if paid then 0 else z.rate) && IsLimited(zoneFee, fee, z.minFee, z.maxFee)
            && (zoneFee > 0 || LeavesAt(c.params, entry, end) / DAY > entry / DAY ==>
                  IsLimited(charge, zoneFee, table.dayMin, table.dayMax))
            && (zoneFee == 0 && LeavesAt(c.params, entry, end) / DAY <= entry / DAY ==> charge == 0)
  {
    if !noGrace { GraceExactly(c, entry, n); }
    var z := table.zones[k];
    var s := Initial(entry, true).(loaded := true, table := table, curMin := z.minFee, curMax := z.maxFee);
    EntryEntered(c, entry, n, table, k, s);
    fee, zoneFee := EntryPassExact(c, n, s, k);
    hide WellShaped, DayShape, Pass, Ready, PerEntry, CloseDay, IsLimited, WithinGrace;
    var t := s.(pt := LeavesAt(c.params, entry, table.bounds[k + 1]),
                motorcycleChecked := c.params.motorcyclePerDay > 0 && c.transType == 2);
    charge := StopsAtOnce(c, entry, n, Initial(entry, true), t, zoneFee);
  }

  lemma EntryEntered(c: Context, entry: int, n: int, table: Day, k: nat, s: State)
    requires WellShaped(c) && c.tables(entry / DAY) == Ok(table) && !table.blockMode && Contains(table, k, entry)
    requires table.zones[k].rateType == 2 && entry < n
    requires s == Initial(entry, true).(loaded := true, table := table, curMin := table.zones[k].minFee,
                                        curMax := table.zones[k].maxFee)
    ensures Ready(c, Initial(entry, true)) && Charge(c, entry, n, true) == Run(c, entry, n, Initial(entry, true))
    ensures Pass(c, entry, n, Initial(entry, true)) == PerEntry(c, n, s, k)
  {
    InitialReady(c, entry, true);
    LookupFindsTheZone(c, Initial(entry, true));
    hide WellShaped, DayShape, PerEntry;
    assert ZoneAt(table, entry) == k;
    hide ZoneAt;
    var loaded := Initial(entry, true).(loaded := true, table := table);
    assert Pass(c, entry, n, Initial(entry, true)) == PassLoaded(c, entry, n, loaded);
  }

  // ---------- The allowance of an hourly zone ----------

  /** A stay that has been charged and ends within the allowance of the hourly zone it comes into costs no more. */
  lemma AllowanceStops(c: Context, entry: int, n: int, s: State, k: nat)
    requires Loaded(c, s) && Contains(s.table, k, s.pt) && !s.table.blockMode && s.noGrace
    requires s.table.zones[k].rateType == 1 && 1 <= s.table.zones[k].block
    requires s.charge > 0 || s.dayFee > 0
    requires s.table.zones[k].allowance > 0 && n - s.pt <= s.table.zones[k].allowance
    ensures |s.table.bounds| == |s.table.zones| + 1 && 1 <= |s.table.zones| && s.pt < EndOf(s.table)
    ensures var o := PassLoaded(c, entry, n, s);
            o.Stop? && FinalCharge(o.last) == FinalCharge(s)
  {
    LookupFindsTheZone(c, s);
    hide WellShaped, DayShape;
    assert ZoneAt(s.table, s.pt) == k;
    hide ZoneAt;
  }

  // ---------- What cannot be charged ----------

  /** A stay that comes into a zone of another rate type than hourly or per entry, or into an hourly one without a block, and not
      within grace, ends with the error code. */
  lemma Uncharged(c: Context, entry: int, n: int, s: State, k: nat)
    requires Loaded(c, s) && Contains(s.table, k, s.pt) && !s.table.blockMode
    requires var z := s.table.zones[k];
             if z.rateType == 1 then z.block == 0 && (s.noGrace || z.grace == 0 || n - s.pt > z.grace) else z.rateType != 2
    ensures |s.table.bounds| == |s.table.zones| + 1 && 1 <= |s.table.zones| && s.pt < EndOf(s.table)
    ensures PassLoaded(c, entry, n, s) == Error(-3)
  {
    LookupFindsTheZone(c, s);
    hide WellShaped, DayShape;
    assert ZoneAt(s.table, s.pt) == k;
    hide ZoneAt;
  }

  // ---------- Rounding ----------

  // Not at all, or up, down, or to the nearest number of whole units, halves up; that number is charged as hundredths.
  predicate IsRounded(r: nat, charge: nat, mode: int) {
    && (mode == 0 ==> r == charge)
    && (mode == 1 ==> 100 * r - 100 < charge <= 100 * r)
    && (mode == 2 ==> 100 * r <= charge < 100 * r + 100)
    && (mode == 3 ==> 100 * r - 50 <= charge < 100 * r + 50)
  }

  lemma RoundMeaning(charge: nat, mode: int)
    requires 0 <= mode <= 3
    ensures IsRounded(Round(charge, mode), charge, mode)
  {
  }

  /** The fee between two times in seconds is the rounded charge of the stay's minutes, the last one begun being counted, from the
      minute of entry on; nothing if the stay ends in an earlier minute than it began. */
  lemma FeeOfSeconds(c: Context, entry: nat, pay: nat, noGrace: bool) returns (minutes: nat, r: nat)
    requires WellShaped(c)
    ensures pay / 60 < entry / 60 ==> ParkingFee(c, entry, pay, noGrace) == Ok(0)
    ensures entry / 60 <= pay / 60 ==>
              && 60 * minutes - 60 < pay - entry <= 60 * minutes
              && match Charge(c, entry / 60, entry / 60 + minutes, noGrace)
                 case Fault(code) => ParkingFee(c, entry, pay, noGrace) == Fault(code)
                 case Ok(charge) => ParkingFee(c, entry, pay, noGrace) == Ok(r) && IsRounded(r, charge, c.params.roundingMode)
  {
    minutes, r := 0, 0;
    if entry / 60 <= pay / 60 {
      minutes := (pay - entry + 59) / 60;
      hide Charge, WellShaped;
      var fee := Charge(c, entry / 60, entry / 60 + minutes, noGrace);
      if fee.Ok? {
        RoundMeaning(fee.value, c.params.roundingMode);
        r := Round(fee.value, c.params.roundingMode);
      }
    }
  }
}
