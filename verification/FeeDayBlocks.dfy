/**
 24-hour mode: when every day charges the same 24-hour fee, a stay costs that fee for each full block of 24 hours, plus
 what the rest of the stay costs under the zones alone, but never more than one more block.
 */
module FeeDayBlocks {
  import opened Tariff
  import opened FeeEngine

  /** Every day is in 24-hour mode, with the same fee, and no day leads to an error code. */
  ghost predicate DayBlockTariff(c: Context, fee: nat) {
    && Chargeable(c)
    && forall day {:trigger c.tables(day)} ::
         c.tables(day).value.blockMode && c.tables(day).value.blockFee == fee
  }

  // The same zones without whole-day limits.
  function ZonesOnly(table: Day): Day {
    table.(dayMin := 0, dayMax := 0, blockMode := false, blockFee := 0)
  }

  function ZonesOnlyTariff(c: Context): Context {
    c.(tables := (day: int) => match c.tables(day)
                               case Ok(table) => Ok(ZonesOnly(table))
                               case Fault(code) => Fault(code))
  }

  function Min(x: nat, y: nat): nat {
    if x <= y then x else y
  }

  // Full blocks of 24 hours between two minutes, counted in clock hours.
  function FullBlocks(entry: int, n: int): int {
    (n / 60 - entry / 60) / 24
  }

  // ---------- The full blocks ----------

  // The state after k blocks: nothing charged but the blocks, and the next day's table not loaded yet.
  predicate AfterBlocks(s: State, entry: int, k: nat, fee: nat, noGrace: bool) {
    && s == Initial(entry + k * DAY, noGrace || k > 0).(table := s.table, blockCharges := fee * k)
    && s.table.dayMin == 0 && s.table.dayMax == 0
    && (k > 0 ==> s.table.blockMode && s.table.blockFee == fee)
  }

  lemma ShiftedDay(entry: int, k: int)
    ensures (entry + k * DAY) / DAY == entry / DAY + k
    ensures (entry + k * DAY) / 60 == entry / 60 + 24 * k
  {
  }

  lemma DayBlockPass(c: Context, entry: int, n: int, k: nat, fee: nat, noGrace: bool, s: State)
    requires DayBlockTariff(c, fee) && Ready(c, s) && AfterBlocks(s, entry, k, fee, noGrace)
    requires k < FullBlocks(entry, n)
    ensures var t := Initial(entry + (k + 1) * DAY, true).
                     (table := c.tables(s.pd).value, blockCharges := fee * (k + 1));
            && Pass(c, entry, n, s) == GoOn(n, t)
            && AfterBlocks(t, entry, k + 1, fee, noGrace)
  {
    ShiftedDay(entry, k);
    ShiftedDay(entry, k + 1);
    var t := Enter(c, s).value;
    assert s.pd <= n / DAY;
    assert TableShape(c.tables, s.pd);
    assert DayBlock(n, t);
    assert fee * (k + 1) == fee * k + fee;
  }

  // ---------- The rest of the stay ----------

  // The state of the same run on the zones alone.
  function Mirror(s: State): State {
    s.(table := ZonesOnly(s.table), blockCharges := 0)
  }

  function MirrorOutcome(o: Outcome): Outcome {
    match o
    case Stop(last) => Stop(Mirror(last))
    case Next(next) => Next(Mirror(next))
    case _ => o
  }

  predicate NoLimits(s: State) {
    s.table.dayMin == 0 && s.table.dayMax == 0
  }

  lemma CloseZoneMirrors(n: int, s: State, fee: nat)
    requires NoLimits(s)
    ensures CloseZone(n, Mirror(s), fee) == MirrorOutcome(CloseZone(n, s, fee))
  {
  }

  lemma PerEntryMirrors(c: Context, n: int, s: State, k: nat)
    requires |s.table.bounds| == |s.table.zones| + 1 && k < |s.table.zones| && NoLimits(s)
    ensures PerEntry(ZonesOnlyTariff(c), n, Mirror(s), k) == MirrorOutcome(PerEntry(c, n, s, k))
  {
    hide CloseZone;
    forall t: State, fee: nat {:trigger CloseZone(n, t, fee)} | NoLimits(t)
      ensures CloseZone(n, Mirror(t), fee) == MirrorOutcome(CloseZone(n, t, fee))
    {
      CloseZoneMirrors(n, t, fee);
    }
  }

  lemma ChargedBlocksMirror(c: Context, entry: int, n: int, s: State, k: nat, free: Free)
    requires |s.table.bounds| == |s.table.zones| + 1 && k < |s.table.zones| && NoLimits(s)
    requires 1 <= s.table.zones[k].block
    ensures var (moved, fee) := ChargedBlocks(c, entry, n, s, k, free);
            && ChargedBlocks(ZonesOnlyTariff(c), entry, n, Mirror(s), k, free) == (Mirror(moved), fee)
            && NoLimits(moved)
  {
    hide Blocks;
  }

  lemma HourlyMirrors(c: Context, entry: int, n: int, s: State, k: nat)
    requires |s.table.bounds| == |s.table.zones| + 1 && k < |s.table.zones| && NoLimits(s)
    requires 1 <= s.table.zones[k].block
    ensures Hourly(ZonesOnlyTariff(c), entry, n, Mirror(s), k) == MirrorOutcome(Hourly(c, entry, n, s, k))
  {
    var z, end, next := s.table.zones[k], s.table.bounds[k + 1], NextPerEntry(s.table, k);
    assert StartOfZone(c.params, z, end, n, next, Mirror(s)) == StartOfZone(c.params, z, end, n, next, s);
    hide StartOfZone;
    var free := StartOfZone(c.params, z, end, n, next, s);
    ChargedBlocksMirror(c, entry, n, s, k, free);
    hide CloseZone, ChargedBlocks;
    var (moved, fee) := ChargedBlocks(c, entry, n, s, k, free);
    CloseZoneMirrors(n, moved, fee);
  }

  lemma PassMirrors(c: Context, entry: int, n: int, s: State)
    requires |s.table.bounds| == |s.table.zones| + 1 && 1 <= |s.table.zones| && s.pt < EndOf(s.table)
    requires NoLimits(s) && !DayBlock(n, s)
    ensures PassLoaded(ZonesOnlyTariff(c), entry, n, Mirror(s)) == MirrorOutcome(PassLoaded(c, entry, n, s))
  {
    LookupMirrors(s.table, s.pt, 1);
    var k := ZoneAt(s.table, s.pt);
    var z := s.table.zones[k];
    var t := s.(noGrace := true, curMin := z.minFee, curMax := z.maxFee);
    hide Hourly, PerEntry, ZoneAt;
    if z.rateType == 2 {
      PerEntryMirrors(c, n, t, k);
    } else if z.rateType == 1 && z.block != 0 {
      HourlyMirrors(c, entry, n, t, k);
    }
  }

  lemma {:induction false} LookupMirrors(table: Day, pt: int, k: nat)
    requires |table.bounds| == |table.zones| + 1
    requires 1 <= k <= |table.zones| && pt < EndOf(table)
    requires k > 1 ==> table.bounds[k - 1] <= pt
    ensures ZoneAtFrom(ZonesOnly(table), pt, k) == ZoneAtFrom(table, pt, k)
    decreases |table.zones| - k
  {
    if table.bounds[k] <= pt { LookupMirrors(table, pt, k + 1); }
  }

  // The blocks paid so far are settled apart from what the zones charge.
  lemma FinalMirrors(s: State, fee: nat)
    requires NoLimits(s) && s.table.blockMode && s.table.blockFee == fee
    ensures FinalCharge(s) == s.blockCharges + Min(fee, FinalCharge(Mirror(s)))
  {
  }

  // What a pass outside the full blocks leaves alone.
  predicate SameBlocks(s: State, t: State) {
    t.blockCharges == s.blockCharges && t.table == s.table
  }

  lemma PassKeepsBlocks(c: Context, entry: int, n: int, s: State)
    requires |s.table.bounds| == |s.table.zones| + 1 && 1 <= |s.table.zones| && s.pt < EndOf(s.table)
    requires !DayBlock(n, s)
    ensures var o := PassLoaded(c, entry, n, s);
            && (o.Stop? ==> SameBlocks(s, o.last))
            && (o.Next? ==> SameBlocks(s, o.next) && o.next.noGrace)
            && (o.Grace? ==> !s.noGrace)
  {
    hide Blocks, CutOff, StartOfZone, ZoneAt;
  }

  // The two runs at the top of a pass: the second one has the same variables, but for the tables.
  ghost predicate Mirrored(c: Context, n: int, s: State, u: State, fee: nat) {
    && Ready(c, s) && s.pt <= n && FullBlocks(s.pt, n) == 0
    && (s.noGrace || s.blockCharges == 0)
    && WellShaped(ZonesOnlyTariff(c)) && Ready(ZonesOnlyTariff(c), u)
    && u == s.(table := u.table, blockCharges := 0)
    && (s.loaded ==> u == Mirror(s))
  }

  lemma EnterMirrors(c: Context, entry: int, n: int, s: State, u: State, fee: nat)
    requires DayBlockTariff(c, fee) && Mirrored(c, n, s, u, fee)
    ensures Enter(c, s).Ok? && Enter(ZonesOnlyTariff(c), u) == Ok(Mirror(Enter(c, s).value))
    ensures var t := Enter(c, s).value;
            && Loaded(c, t) && NoLimits(t) && t.table.blockMode && t.table.blockFee == fee
            && t == s.(loaded := true, table := t.table)
            && |t.table.bounds| == |t.table.zones| + 1 && 1 <= |t.table.zones| && t.pt < EndOf(t.table)
            && Pass(c, entry, n, s) == PassLoaded(c, entry, n, t)
            && Pass(ZonesOnlyTariff(c), entry, n, u) == PassLoaded(ZonesOnlyTariff(c), entry, n, Mirror(t))
  {
    assert TableShape(c.tables, s.pd);
    hide PassLoaded;
  }

  /** From any state with less than a full block left, the run costs the blocks so far plus the zones' charge, at most
      one more block. */
  lemma {:induction false} RunMirrors(c: Context, entry: int, n: int, s: State, u: State, fee: nat)
    requires DayBlockTariff(c, fee) && Mirrored(c, n, s, u, fee)
    ensures Run(c, entry, n, s).Ok? && Run(ZonesOnlyTariff(c), entry, n, u).Ok?
    ensures Run(c, entry, n, s).value == s.blockCharges + Min(fee, Run(ZonesOnlyTariff(c), entry, n, u).value)
    decreases n - s.pt
  {
    var d := ZonesOnlyTariff(c);
    EnterMirrors(c, entry, n, s, u, fee);
    var t := Enter(c, s).value;
    hide PassLoaded, FinalCharge, Ready, DayBlockTariff, NoLimits, ZonesOnlyTariff, ZonesOnly, Enter;
    PassMirrors(c, entry, n, t);
    PassKeepsBlocks(c, entry, n, t);
    NeverFaults(c, entry, n, t, fee);
    MirroredReady(c, n, s, u, fee);
    PassAdvances(c, entry, n, s);
    PassAdvances(d, entry, n, u);
    var o := PassLoaded(c, entry, n, t);
    if o.Stop? {
      SameLimits(t, o.last);
      FinalMirrors(o.last, fee);
    } else if o.Next? {
      RunMirrors(c, entry, n, o.next, Mirror(o.next), fee);
    }
  }

  lemma SameLimits(s: State, t: State)
    requires NoLimits(s) && t.table == s.table
    ensures NoLimits(t)
  {
  }

  lemma MirroredReady(c: Context, n: int, s: State, u: State, fee: nat)
    requires Mirrored(c, n, s, u, fee)
    ensures Ready(c, s) && Ready(ZonesOnlyTariff(c), u)
  {
  }

  lemma NeverFaults(c: Context, entry: int, n: int, s: State, fee: nat)
    requires DayBlockTariff(c, fee) && Loaded(c, s)
    ensures !PassLoaded(c, entry, n, s).Error?
  {
    hide PassLoaded;
    PassNeverFaults(c, entry, n, s);
  }

  // ---------- The whole stay ----------

  lemma ZonesOnlyShape(c: Context)
    requires WellShaped(c)
    ensures WellShaped(ZonesOnlyTariff(c))
  {
    var d := ZonesOnlyTariff(c);
    forall day ensures TableShape(d.tables, day) {
      assert TableShape(c.tables, day);
    }
    forall day, other ensures SameEnd(d.tables, day, other) {
      assert TableShape(c.tables, day) && TableShape(c.tables, other);
      assert SameEnd(c.tables, day, other);
      hide DayShape;
    }
  }

  /** What the zones alone charge from a later minute on, without grace if a full block came before it; nothing if the
      blocks already reach the pay time. */
  ghost function RestCharge(c: Context, entry: int, n: int, noGrace: bool): Result<nat>
    requires WellShaped(ZonesOnlyTariff(c))
  {
    var k := FullBlocks(entry, n);
    var rest := entry + k * DAY;
    if k > 0 && n <= rest then Ok(0)
    else
      InitialReady(ZonesOnlyTariff(c), rest, noGrace || k > 0);
      Run(ZonesOnlyTariff(c), entry, n, Initial(rest, noGrace || k > 0))
  }

  lemma {:induction false} RunDayBlocks(c: Context, entry: int, n: int, k: nat, fee: nat, noGrace: bool, s: State)
    requires DayBlockTariff(c, fee) && WellShaped(ZonesOnlyTariff(c))
    requires Ready(c, s) && AfterBlocks(s, entry, k, fee, noGrace)
    requires entry <= n && k <= FullBlocks(entry, n) && s.pt <= n && (k > 0 ==> s.pt < n)
    ensures Run(c, entry, n, s).Ok? && RestCharge(c, entry, n, noGrace).Ok?
    ensures Run(c, entry, n, s).value
         == fee * FullBlocks(entry, n) + Min(fee, RestCharge(c, entry, n, noGrace).value)
    decreases n - s.pt
  {
    var blocks := FullBlocks(entry, n);
    hide DayShape, Pass, WellShaped;
    if k < blocks {
      DayBlockPass(c, entry, n, k, fee, noGrace, s);
      PassAdvances(c, entry, n, s);
      var t := Initial(entry + (k + 1) * DAY, true).
                 (table := c.tables(s.pd).value, blockCharges := fee * (k + 1));
      if t.pt < n {
        RunDayBlocks(c, entry, n, k + 1, fee, noGrace, t);
      } else {
        ShiftedDay(entry, k + 1);
        assert blocks == k + 1;
        assert FinalCharge(t) == fee * (k + 1);
      }
    } else {
      ShiftedDay(entry, k);
      var u := Initial(entry + k * DAY, noGrace || k > 0);
      InitialReady(ZonesOnlyTariff(c), entry + k * DAY, noGrace || k > 0);
      RunMirrors(c, entry, n, s, u, fee);
    }
  }

  /** 24-hour mode is exact: the charge before rounding is the fee of the full blocks between entry and effective pay
      time plus the zones' charge for the rest, at most one more block. */
  lemma DayBlocksExact(c: Context, entry: int, n: int, fee: nat, noGrace: bool)
    requires DayBlockTariff(c, fee) && entry <= n
    ensures WellShaped(ZonesOnlyTariff(c))
    ensures Charge(c, entry, n, noGrace).Ok? && RestCharge(c, entry, n, noGrace).Ok?
    ensures var blocks := FullBlocks(entry, n);
            && Charge(c, entry, n, noGrace).value == fee * blocks + Min(fee, RestCharge(c, entry, n, noGrace).value)
            && fee * blocks <= Charge(c, entry, n, noGrace).value <= fee * (blocks + 1)
  {
    ZonesOnlyShape(c);
    InitialReady(c, entry, noGrace);
    RunDayBlocks(c, entry, n, 0, fee, noGrace, Initial(entry, noGrace));
    assert fee * (FullBlocks(entry, n) + 1) == fee * FullBlocks(entry, n) + fee;
  }
}
