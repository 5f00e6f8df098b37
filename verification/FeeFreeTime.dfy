/**
 When a stay is granted free time, and when again: told from the tables and the clock before each pass.
 */
module FeeFreeTime {
  import opened Tariff
  import opened FeeEngine
  import opened ZoneCharge
  import opened SpecialDay

  // ---------- What a pass charges, before it is made ----------

  // The clock after the free blocks of the zone, their money and their number; the clock as it is if there are none.
  function FreeWalk(c: Context, n: int, s: State, k: nat): (int, nat, int)
    requires |s.table.bounds| == |s.table.zones| + 1 && k < |s.table.zones|
  {
    var z, end := s.table.zones[k], s.table.bounds[k + 1];
    if FreeApplies(c.params, z, s) then
      FreeSteps(c.params, z, end, n, NextPerEntry(s.table, k), s.table.zoneCutoff, 1, s.pt, 0)
    else (s.pt, 0, 0)
  }

  // A day that is left costs its minimum.
  predicate DayFree(s: State, pt: int) {
    pt / DAY > s.pd ==> s.table.dayMin == 0
  }

  /** An hourly zone charges nothing: no money of its free blocks, no minimum, and no rate unless the free blocks outlast it;
      nor a day minimum, if its blocks outlast the day. */
  predicate HourlyFree(c: Context, entry: int, n: int, s: State, k: nat)
    requires |s.table.bounds| == |s.table.zones| + 1 && k < |s.table.zones|
  {
    var z, end := s.table.zones[k], s.table.bounds[k + 1];
    var (clock, money, _) := FreeWalk(c, n, s, k);
    && 1 <= z.block && money == 0 && z.minFee == 0 && (z.rate == 0 || end <= clock)
    && DayFree(s, CutOff(c, entry, n, s.table, k, clock + z.block * BlocksBegun(z.block, end, n, clock)))
  }

  // In mode 1 free time is used up when it outlasts the zone, or has had all three blocks.
  predicate UsesUp(c: Context, n: int, s: State, k: nat)
    requires |s.table.bounds| == |s.table.zones| + 1 && k < |s.table.zones|
  {
    var (clock, _, granted) := FreeWalk(c, n, s, k);
    c.params.firstHourMode == 1 && FreeApplies(c.params, s.table.zones[k], s)
    && (s.table.bounds[k + 1] <= clock || granted == 3)
  }

  // A per-entry zone charges nothing: no rate, or none for a motorcycle that has paid, and no minimum.
  predicate EntryFree(c: Context, s: State, k: nat)
    requires |s.table.bounds| == |s.table.zones| + 1 && k < |s.table.zones|
  {
    var z, end := s.table.zones[k], s.table.bounds[k + 1];
    && (z.rate == 0 || PaidAlready(c, s.motorcycleChecked, z, s.table.bounds[k], end)) && z.minFee == 0
    && DayFree(s, LeaveEntry(c, s, end).pt)
  }

  /** The pass leaves free time to be granted: it charges nothing, apart from 24-hour fees, and does not use it up. */
  ghost predicate LeavesFree(c: Context, entry: int, n: int, s: State)
    requires Loaded(c, s)
  {
    LoadedFacts(c, s);
    if DayBlock(n, s) then s.curMin == 0
    else
      var k := ZoneAt(s.table, s.pt);
      if s.table.zones[k].rateType == 2 then EntryFree(c, s, k)
      else HourlyFree(c, entry, n, s, k) && !UsesUp(c, n, s, k)
  }

  // Nothing is charged yet but 24-hour fees, and free time is not used up.
  predicate Unspent(s: State) {
    !Owing(s) && !s.freed
  }

  lemma ClampsToMore(fee: nat, low: nat, high: nat)
    ensures Clamp(fee, low, high) > 0 <==> fee > 0 || low > 0
  {
  }

  lemma CloseZoneUnspent(n: int, s: State, fee: nat)
    requires Unspent(s) && CloseZone(n, s, fee).Next?
    ensures Unspent(CloseZone(n, s, fee).next) <==> fee == 0 && s.curMin == 0 && DayFree(s, s.pt)
  {
    ClampsToMore(fee, s.curMin, s.curMax);
    ClampsToMore(Clamp(fee, s.curMin, s.curMax), s.table.dayMin, s.table.dayMax);
    hide Clamp;
  }

  // Free charge blocks take the clock over the blocks begun.
  lemma {:induction false} FreeBlocksClock(z: Zone, end: int, n: int, owing: bool, pt: int)
    requires 1 <= z.block && z.rate == 0
    ensures Blocks(z, end, n, owing, pt, 0) == (pt + z.block * BlocksBegun(z.block, end, n, pt), 0)
    decreases end - pt
  {
    hide BlocksBegun;
    if end <= pt {
      OutsideZone(z.block, end, n, pt);
    } else {
      OneBlockMore(z.block, end, n, pt);
      if pt + z.block < n {
        FreeBlocksClock(z, end, n, owing, pt + z.block);
        Distribute(z.block, BlocksBegun(z.block, end, n, pt + z.block));
      }
    }
  }

  lemma BlocksCharge(z: Zone, end: int, n: int, pt: int, money: nat)
    requires 1 <= z.block <= DAY && pt < end + DAY
    ensures var (clock, fee) := Blocks(z, end, n, false, pt, money);
            && (fee == 0 <==> money == 0 && (z.rate == 0 || end <= pt))
            && (fee == 0 ==> clock == pt + z.block * BlocksBegun(z.block, end, n, pt))
  {
    if z.rate == 0 {
      FreeBlocksClock(z, end, n, false, pt);
    } else if pt < end {
      BlocksBounds(z, end, n, false, pt + z.block, money + z.rate);
    } else {
      OutsideZone(z.block, end, n, pt);
    }
    BlocksBounds(z, end, n, false, pt, money);
    hide BlocksBegun;
  }

  lemma HourlyLeavesFree(c: Context, entry: int, n: int, s: State, k: nat)
    requires |s.table.bounds| == |s.table.zones| + 1 && k < |s.table.zones| && s.pt < s.table.bounds[k + 1]
    requires ZoneShape(s.table.zones[k]) && 1 <= s.table.zones[k].block && s.curMin == s.table.zones[k].minFee
    requires Unspent(s) && Hourly(c, entry, n, s, k).Next?
    ensures Unspent(Hourly(c, entry, n, s, k).next) <==> HourlyFree(c, entry, n, s, k) && !UsesUp(c, n, s, k)
  {
    var z, end, next := s.table.zones[k], s.table.bounds[k + 1], NextPerEntry(s.table, k);
    var (clock, money, granted) := FreeWalk(c, n, s, k);
    FreeTimeIsSteps(c.params, z, end, n, next, s.table.zoneCutoff, s.pt);
    FreeBounds(c.params, z, end, n, next, s.table.zoneCutoff, s.pt);
    StepsAtMostThree(c.params, z, end, n, next, s.table.zoneCutoff, 1, s.pt, 0);
    var free := StartOfZone(c.params, z, end, n, next, s);
    assert free.pt == clock && free.fee == money && free.pt < end + DAY;
    assert !free.stop ==> (free.freed <==> UsesUp(c, n, s, k));
    BlocksCharge(z, end, n, clock, money);
    hide FirstFree, FreeSteps, FreeWalk, StartOfZone, Blocks, BlocksBegun, CutOff, NextPerEntry, UsesUp;
    var (moved, fee) := ChargedBlocks(c, entry, n, s, k, free);
    assert Hourly(c, entry, n, s, k) == CloseZone(n, moved, fee);
    if moved.freed {
      hide CloseZone;
      CloseZoneKeepsFreed(n, moved, fee);
    } else {
      CloseZoneUnspent(n, moved, fee);
    }
  }

  lemma CloseZoneKeepsFreed(n: int, s: State, fee: nat)
    ensures var o := CloseZone(n, s, fee); o.Next? ==> o.next.freed == s.freed && (Owing(s) ==> Owing(o.next))
  {
  }

  lemma {:induction false} StepsAtMostThree(p: Params, z: Zone, end: int, n: int, nextPerEntry: bool, cutoff: bool,
                                            i: int, clock: int, fee: nat)
    requires 1 <= i <= 4
    ensures FreeSteps(p, z, end, n, nextPerEntry, cutoff, i, clock, fee).2 <= 3
    decreases 4 - i
  {
    if i <= 3 {
      var after := clock + FreeLength(z, i);
      StepsAtMostThree(p, z, end, n, nextPerEntry, cutoff, i + 1, if cutoff && end < after then end else after,
                       fee + FreeAdd(z, i));
    }
  }

  lemma EntryLeavesFree(c: Context, n: int, s: State, k: nat)
    requires |s.table.bounds| == |s.table.zones| + 1 && k < |s.table.zones| && s.curMin == s.table.zones[k].minFee
    requires Unspent(s) && PerEntry(c, n, s, k).Next?
    ensures Unspent(PerEntry(c, n, s, k).next) <==> EntryFree(c, s, k)
  {
    var fee := EntryFee(c, n, s, k);
    assert fee == 0 <==> s.table.zones[k].rate == 0
                         || PaidAlready(c, s.motorcycleChecked, s.table.zones[k], s.table.bounds[k], s.table.bounds[k + 1]);
    hide EntryFee, PaidAlready, CloseZone;
    CloseZoneUnspent(n, LeaveEntry(c, s, s.table.bounds[k + 1]), fee);
  }

  /** After one pass, free time can still be granted exactly when the pass charged nothing and did not use it up. */
  lemma PassLeavesFreeExactly(c: Context, entry: int, n: int, s: State)
    requires Loaded(c, s) && Unspent(s) && PassLoaded(c, entry, n, s).Next?
    ensures Unspent(PassLoaded(c, entry, n, s).next) <==> LeavesFree(c, entry, n, s)
  {
    LoadedFacts(c, s);
    var k := ZoneAt(s.table, s.pt);
    var z := s.table.zones[k];
    var t := s.(noGrace := true, curMin := z.minFee, curMax := z.maxFee);
    if DayBlock(n, s) {
      hide WellShaped;
      var moved := s.(pt := s.pt + DAY, blockCharges := s.blockCharges + s.table.blockFee, noGrace := true);
      CloseZoneUnspent(n, moved, 0);
    } else if z.rateType == 2 {
      hide WellShaped, DayShape, PerEntry, ZoneAt;
      EntryLeavesFree(c, n, t, k);
      assert EntryFree(c, t, k) == EntryFree(c, s, k);
    } else {
      assert FreeWalk(c, n, t, k) == FreeWalk(c, n, s, k);
      hide WellShaped, DayShape, Hourly, FreeWalk, ZoneAt, BlocksBegun, CutOff;
      HourlyLeavesFree(c, entry, n, t, k);
      assert HourlyFree(c, entry, n, t, k) == HourlyFree(c, entry, n, s, k) && UsesUp(c, n, t, k) == UsesUp(c, n, s, k);
    }
  }

  // Nothing charged is taken back, and free time that is used up stays so.
  lemma SpentStays(c: Context, entry: int, n: int, s: State)
    requires Loaded(c, s) && !Unspent(s) && PassLoaded(c, entry, n, s).Next?
    ensures !Unspent(PassLoaded(c, entry, n, s).next)
  {
    LoadedFacts(c, s);
    hide WellShaped, DayShape, CloseZone, ZoneAt, StartOfZone, Blocks, CutOff;
    forall u: State, fee: nat {:trigger CloseZone(n, u, fee)} | CloseZone(n, u, fee).Next?
      ensures CloseZone(n, u, fee).next.freed == u.freed && (Owing(u) ==> Owing(CloseZone(n, u, fee).next))
    {
      CloseZoneKeepsFreed(n, u, fee);
    }
  }

  // ---------- Whole runs ----------

  // The states at the top of the passes of a run, each going on to the next.
  ghost predicate Passes(c: Context, entry: int, n: int, states: seq<State>) {
    && states != [] && (forall s :: s in states ==> Ready(c, s) && Enter(c, s).Ok?)
    && forall i | 0 <= i < |states| - 1 :: Pass(c, entry, n, states[i]) == Next(states[i + 1])
  }

  // The state on the table of its day.
  ghost function OnTable(c: Context, s: State): (t: State)
    requires Ready(c, s) && Enter(c, s).Ok?
    ensures Loaded(c, t)
  {
    Enter(c, s).value
  }

  lemma PassOfRun(c: Context, entry: int, n: int, s: State)
    requires Ready(c, s) && Enter(c, s).Ok? && Pass(c, entry, n, s).Next?
    ensures Unspent(OnTable(c, s)) <==> Unspent(s)
    ensures Unspent(Pass(c, entry, n, s).next) <==> Unspent(s) && LeavesFree(c, entry, n, OnTable(c, s))
  {
    var t := OnTable(c, s);
    assert Pass(c, entry, n, s) == PassLoaded(c, entry, n, t);
    hide Ready, PassLoaded;
    if Unspent(t) {
      PassLeavesFreeExactly(c, entry, n, t);
    } else {
      SpentStays(c, entry, n, t);
    }
  }

  lemma EarlierPasses(c: Context, entry: int, n: int, states: seq<State>)
    requires Passes(c, entry, n, states) && |states| > 1
    ensures var m := |states| - 1;
            && Passes(c, entry, n, states[..m]) && states[..m][0] == states[0] && states[..m][m - 1] == states[m - 1]
            && Ready(c, states[m - 1]) && Pass(c, entry, n, states[m - 1]) == Next(states[m])
  {
    var m := |states| - 1;
    hide Ready, Pass, Enter;
    assert states[m - 1] in states;
    forall i | 0 <= i < m - 1 ensures Pass(c, entry, n, states[..m][i]) == Next(states[..m][i + 1]) {
      assert states[..m][i] == states[i] && states[..m][i + 1] == states[i + 1];
    }
  }

  // Every pass of the run leaves free time to be granted.
  ghost predicate AllLeaveFree(c: Context, entry: int, n: int, states: seq<State>)
    requires Passes(c, entry, n, states)
  {
    forall i | 0 <= i < |states| - 1 :: LeavesFree(c, entry, n, OnTable(c, states[i]))
  }

  lemma OneMoreLeavesFree(c: Context, entry: int, n: int, states: seq<State>)
    requires Passes(c, entry, n, states) && |states| > 1 && Passes(c, entry, n, states[..|states| - 1])
    requires Ready(c, states[|states| - 2]) && Enter(c, states[|states| - 2]).Ok?
    ensures AllLeaveFree(c, entry, n, states)
       <==> AllLeaveFree(c, entry, n, states[..|states| - 1])
            && LeavesFree(c, entry, n, OnTable(c, states[|states| - 2]))
  {
    var m := |states| - 1;
    hide Ready, Pass, Enter, LeavesFree;
    assert forall i :: 0 <= i < m ==> states[..m][i] == states[i];
    if AllLeaveFree(c, entry, n, states[..m]) && LeavesFree(c, entry, n, OnTable(c, states[m - 1])) {
      forall i | 0 <= i < m ensures LeavesFree(c, entry, n, OnTable(c, states[i])) {
        if i < m - 1 { assert LeavesFree(c, entry, n, OnTable(c, states[..m][i])); }
      }
    }
    if AllLeaveFree(c, entry, n, states) {
      forall i | 0 <= i < m - 1 ensures LeavesFree(c, entry, n, OnTable(c, states[..m][i])) {
        assert LeavesFree(c, entry, n, OnTable(c, states[i]));
      }
    }
  }

  lemma {:induction false} RunLeavesFree(c: Context, entry: int, n: int, states: seq<State>)
    requires Passes(c, entry, n, states) && Unspent(states[0])
    ensures Unspent(states[|states| - 1]) <==> AllLeaveFree(c, entry, n, states)
  {
    if |states| > 1 {
      var m := |states| - 1;
      EarlierPasses(c, entry, n, states);
      assert Enter(c, states[m - 1]).Ok? by { hide Ready, Pass, Enter; assert states[m - 1] in states; }
      hide Ready, Pass, Enter, Unspent, LeavesFree, Passes, AllLeaveFree;
      RunLeavesFree(c, entry, n, states[..m]);
      PassOfRun(c, entry, n, states[m - 1]);
      OneMoreLeavesFree(c, entry, n, states);
    }
  }

  // In the mode 0 free time is never used up.
  lemma {:induction false} NeverUsedUp(c: Context, entry: int, n: int, states: seq<State>)
    requires Passes(c, entry, n, states) && !states[0].freed && c.params.firstHourMode == 0
    ensures !states[|states| - 1].freed
  {
    if |states| > 1 {
      var m := |states| - 1;
      var init := states[..m];
      EarlierPasses(c, entry, n, states);
      hide Ready, Enter, Passes;
      NeverUsedUp(c, entry, n, init);
      PassKeepsUnused(c, entry, n, states[m - 1]);
    }
  }

  lemma PassKeepsUnused(c: Context, entry: int, n: int, s: State)
    requires Ready(c, s) && !s.freed && c.params.firstHourMode == 0 && Pass(c, entry, n, s).Next?
    ensures !Pass(c, entry, n, s).next.freed
  {
    var t := Enter(c, s).value;
    LoadedFacts(c, t);
    assert Pass(c, entry, n, s) == PassLoaded(c, entry, n, t) && !t.freed;
    hide Ready, Pass, Enter, WellShaped, DayShape, CloseZone, ZoneAt, Hourly, PerEntry;
    if DayBlock(n, t) {
      CloseZoneKeepsFreed(n, t.(pt := t.pt + DAY, blockCharges := t.blockCharges + t.table.blockFee, noGrace := true), 0);
    } else {
      var k := ZoneAt(t.table, t.pt);
      var z := t.table.zones[k];
      var u := t.(noGrace := true, curMin := z.minFee, curMax := z.maxFee);
      if z.rateType == 2 {
        EntryKeepsUnused(c, n, u, k);
      } else {
        HourlyKeepsUnused(c, entry, n, u, k);
      }
    }
  }

  lemma EntryKeepsUnused(c: Context, n: int, s: State, k: nat)
    requires |s.table.bounds| == |s.table.zones| + 1 && k < |s.table.zones| && !s.freed
    ensures PerEntry(c, n, s, k).Next? ==> !PerEntry(c, n, s, k).next.freed
  {
    CloseZoneKeepsFreed(n, LeaveEntry(c, s, s.table.bounds[k + 1]), EntryFee(c, n, s, k));
    hide CloseZone, EntryFee;
  }

  lemma HourlyKeepsUnused(c: Context, entry: int, n: int, s: State, k: nat)
    requires |s.table.bounds| == |s.table.zones| + 1 && k < |s.table.zones| && !s.freed
    requires 1 <= s.table.zones[k].block && c.params.firstHourMode == 0
    ensures Hourly(c, entry, n, s, k).Next? ==> !Hourly(c, entry, n, s, k).next.freed
  {
    var z, end, next := s.table.zones[k], s.table.bounds[k + 1], NextPerEntry(s.table, k);
    StartUnused(c.params, z, end, n, next, s);
    var free := StartOfZone(c.params, z, end, n, next, s);
    hide StartOfZone, Blocks, CutOff;
    var (moved, fee) := ChargedBlocks(c, entry, n, s, k, free);
    CloseZoneKeepsFreed(n, moved, fee);
    hide CloseZone;
  }

  lemma StartUnused(p: Params, z: Zone, end: int, n: int, next: bool, s: State)
    requires p.firstHourMode == 0
    ensures !StartOfZone(p, z, end, n, next, s).freed
  {
  }

  /** Over every run: a zone with free blocks is granted them, be it for the first or for another time, exactly when the station
      gives free time at all and either its mode is 0, or every zone before charged nothing and none used the free time up. */
  lemma FreeAgainExactly(c: Context, entry: int, n: int, states: seq<State>, z: Zone)
    requires Passes(c, entry, n, states) && Unspent(states[0])
    ensures FreeApplies(c.params, z, states[|states| - 1])
       <==> && z.free1 > 0 && c.params.firstHour > 0
            && (c.params.firstHourMode == 0 || AllLeaveFree(c, entry, n, states))
  {
    hide AllLeaveFree;
    RunLeavesFree(c, entry, n, states);
    if c.params.firstHourMode == 0 { NeverUsedUp(c, entry, n, states); }
    hide Passes;
  }

  // ---------- Two free times in one stay ----------

  // 40 minutes free, then 60 minutes more in the next zone for 300.
  function Morning(rate: nat): Zone {
    HourlyZone(rate, 60).(free1 := 40)
  }

  const NOON := HourlyZone(0, 60).(free1 := 60, add1 := 300)

  function TwiceRow(rate: nat): Row {
    TwoZones(Morning(rate), NOON, 100).(zoneCutoff := true)
  }

  function OneFreeHour(mode: int): Params {
    PLAIN.(firstHour := 1, firstHourMode := mode)
  }

  function TwiceStation(rate: nat, mode: int): Context {
    Station(TwiceRow(rate), TwiceRow(rate), 0, OneFreeHour(mode))
  }

  predicate TwiceDay(c: Context, rate: nat) {
    c.tables(0).Ok? && TwoZonesDay(c.tables(0).value, 0, Morning(rate), NOON, 100, TwiceRow(rate), 1)
  }

  lemma TwiceTables(rate: nat, mode: int)
    ensures var c := TwiceStation(rate, mode); WellShaped(c) && c.params == OneFreeHour(mode) && TwiceDay(c, rate)
  {
    var row := TwiceRow(rate);
    TwoZonesSimple(row, Morning(rate), NOON, 100);
    StationDays(row, row, 0, OneFreeHour(mode));
    hide Simple, WellShaped, TwoZonesDay, AssembleDay, Station;
    TwoZonesTable(row, row, row, 0, Morning(rate), NOON, 100);
  }

  lemma TwiceCharges(c: Context, rate: nat, mode: int)
    requires WellShaped(c) && c.params == OneFreeHour(mode) && TwiceDay(c, rate)
    requires mode == 0 || (mode == 1 && rate == 0)
    ensures Charge(c, 0, 130, true) == Ok(rate + 300)
  {
    var t := c.tables(0).value;
    var s := FirstPass(c, 0, 130, t);
    PassAdvances(c, 0, 130, Initial(0, true));
    hide WellShaped, Ready, DayShape;
    TwoZonesAt(t, 0, Morning(rate), NOON, 100, TwiceRow(rate), 1, 0);
    TwoZonesAt(t, 0, Morning(rate), NOON, 100, TwiceRow(rate), 1, 100);
    var z1, z2 := t.zones[1], t.zones[2];
    assert Blocks(z1, 100, 130, false, 40, 0) == (100, rate);
    hide ZoneAt, Blocks;
    assert FirstFree(c.params, z1, 100, 130, NextPerEntry(t, 1), true, 0) == Free(40, 0, false, false);
    assert FirstFree(c.params, z2, DAY, 130, NextPerEntry(t, 2), true, 100) == Free(160, 300, false, true);
    hide FirstFree, NextPerEntry;
    var u := s.(pt := 100, dayFee := rate);
    assert Hourly(c, 0, 130, s, 1) == Next(u);
    assert Hourly(c, 0, 130, u, 2) == Stop(u.(pt := 160, dayFee := rate + 300));
    hide Hourly;
    assert Pass(c, 0, 130, Initial(0, true)) == Next(u);
    assert Pass(c, 0, 130, u) == PassLoaded(c, 0, 130, u);
    assert Run(c, 0, 130, u) == Ok(rate + 300);
  }

  /** A stay of 130 minutes has both free times: in mode 0 although the first zone charged, and in mode 1 where it charged
      nothing. */
  lemma FreeTwice(rate: nat, mode: int)
    requires mode == 0 || (mode == 1 && rate == 0)
    ensures var c := TwiceStation(rate, mode); WellShaped(c) && ParkingFee(c, 0, 7800, true) == Ok(rate + 300)
  {
    TwiceTables(rate, mode);
    var c := TwiceStation(rate, mode);
    hide WellShaped, TwiceDay, TwiceStation, Charge;
    TwiceCharges(c, rate, mode);
    WholeMinutes(c, 0, 130, rate + 300);
  }
}
