/**
 The whole-day maximum bounds what a stay can cost: no more than the sum of the maxima of its calendar days.
 */
module FeeDayCap {
  import opened Tariff
  import opened FeeEngine

  function DayCap(tables: int -> Result<Day>, day: int): nat {
    if tables(day).Ok? then tables(day).value.dayMax else 0
  }

  // The sum of the whole-day maxima from the first day up to, but not including, the last.
  function CapsBefore(tables: int -> Result<Day>, first: int, last: int): nat
    decreases last - first
  {
    if last <= first then 0 else CapsBefore(tables, first, last - 1) + DayCap(tables, last - 1)
  }

  lemma {:induction false} CapsGrow(tables: int -> Result<Day>, first: int, last: int, more: int)
    requires last <= more
    ensures CapsBefore(tables, first, last) <= CapsBefore(tables, first, more)
    decreases more - last
  {
    if last < more { CapsGrow(tables, first, last, more - 1); }
  }

  /** Every day has a positive whole-day maximum and none is in 24-hour mode. */
  ghost predicate CappedTariff(c: Context) {
    && WellShaped(c)
    && forall day {:trigger c.tables(day)} :: c.tables(day).Ok? ==>
         c.tables(day).value.dayMax > 0 && !c.tables(day).value.blockMode
  }

  // ---------- One pass closes at most one day, within its maximum ----------

  predicate WithinDay(s: State, t: State) {
    && t.table == s.table
    && (if t.pd == s.pd then t.charge == s.charge && t.loaded == s.loaded
        else t.pd == s.pd + 1 && !t.loaded && t.dayFee == 0 && t.charge <= s.charge + s.table.dayMax)
  }

  predicate OutcomeWithinDay(s: State, o: Outcome) {
    && (o.Stop? ==> WithinDay(s, o.last))
    && (o.Next? ==> WithinDay(s, o.next))
  }

  predicate SameDay(s: State, t: State) {
    t.table == s.table && t.pd == s.pd && t.charge == s.charge && t.loaded == s.loaded
  }

  lemma CloseZoneWithinDay(n: int, s: State, t: State, fee: nat)
    requires s.table.dayMax > 0 && SameDay(s, t)
    ensures OutcomeWithinDay(s, CloseZone(n, t, fee))
  {
  }

  lemma HourlyWithinDay(c: Context, entry: int, n: int, s: State, t: State, k: nat)
    requires |t.table.bounds| == |t.table.zones| + 1 && k < |t.table.zones| && 1 <= t.table.zones[k].block
    requires s.table.dayMax > 0 && SameDay(s, t)
    ensures OutcomeWithinDay(s, Hourly(c, entry, n, t, k))
  {
    hide CloseZone, Blocks, CutOff, StartOfZone;
    var free := StartOfZone(c.params, t.table.zones[k], t.table.bounds[k + 1], n, NextPerEntry(t.table, k), t);
    var (pt, fee) := Blocks(t.table.zones[k], t.table.bounds[k + 1], n, Owing(t), free.pt, free.fee);
    CloseZoneWithinDay(n, s, t.(pt := CutOff(c, entry, n, t.table, k, pt), freed := t.freed || free.freed), fee);
  }

  lemma PerEntryWithinDay(c: Context, n: int, s: State, t: State, k: nat)
    requires |t.table.bounds| == |t.table.zones| + 1 && k < |t.table.zones|
    requires s.table.dayMax > 0 && SameDay(s, t)
    ensures OutcomeWithinDay(s, PerEntry(c, n, t, k))
  {
    var o := PerEntry(c, n, t, k);
    hide CloseZone, OutcomeWithinDay;
    forall u: State, fee: nat {:trigger CloseZone(n, u, fee)} | SameDay(s, u)
      ensures OutcomeWithinDay(s, CloseZone(n, u, fee))
    {
      CloseZoneWithinDay(n, s, u, fee);
    }
  }

  lemma PassWithinDay(c: Context, entry: int, n: int, s: State)
    requires Loaded(c, s) && s.table.dayMax > 0 && !s.table.blockMode
    ensures OutcomeWithinDay(s, PassLoaded(c, entry, n, s))
  {
    LoadedFacts(c, s);
    hide WellShaped, DayShape, Hourly, PerEntry;
    var k := ZoneAt(s.table, s.pt);
    var z := s.table.zones[k];
    var t := s.(noGrace := true, curMin := z.minFee, curMax := z.maxFee);
    if z.rateType == 2 {
      PerEntryWithinDay(c, n, s, t, k);
    } else if z.rateType == 1 && z.block != 0 {
      HourlyWithinDay(c, entry, n, s, t, k);
    }
  }

  // ---------- Whole runs ----------

  // The closed days are within their maxima; an open day's fee belongs to the loaded table.
  ghost predicate Capped(c: Context, first: int, n: int, s: State) {
    && Ready(c, s) && !s.table.blockMode
    && first <= s.pd && s.pt <= n
    && s.charge <= CapsBefore(c.tables, first, s.pd)
  }

  lemma WithinDayFinal(c: Context, first: int, n: int, s: State, t: State)
    requires Capped(c, first, n, s) && s.loaded && s.table.dayMax > 0 && WithinDay(s, t)
    ensures FinalCharge(t) <= CapsBefore(c.tables, first, s.pd + 1)
    ensures t.charge <= CapsBefore(c.tables, first, t.pd)
  {
    assert c.tables(s.pd).value == s.table;
    hide Ready;
  }

  lemma {:induction false} RunCapped(c: Context, entry: int, first: int, n: int, s: State)
    requires CappedTariff(c) && Capped(c, first, n, s)
    ensures var r := Run(c, entry, n, s); r.Ok? ==> r.value <= CapsBefore(c.tables, first, n / DAY + 1)
    decreases n - s.pt
  {
    hide PassLoaded, FinalCharge, DayShape;
    var e := Enter(c, s);
    if e.Ok? {
      var t := e.value;
      assert c.tables(s.pd).value == t.table;
      PassWithinDay(c, entry, n, t);
      PassAdvances(c, entry, n, s);
      CapsGrow(c.tables, first, s.pd + 1, n / DAY + 1);
      var o := Pass(c, entry, n, s);
      if o.Stop? {
        WithinDayFinal(c, first, n, t, o.last);
      } else if o.Next? {
        WithinDayFinal(c, first, n, t, o.next);
        RunCapped(c, entry, first, n, o.next);
      }
    }
  }

  /** When every day has a positive whole-day maximum and none is in 24-hour mode, the charge before rounding is at most
      the sum of the maxima of the calendar days from entry to effective pay time. */
  lemma StayWithinDayCaps(c: Context, entry: int, n: int, noGrace: bool)
    requires CappedTariff(c) && entry <= n
    ensures var charge := Charge(c, entry, n, noGrace);
            charge.Ok? ==> charge.value <= CapsBefore(c.tables, entry / DAY, n / DAY + 1)
  {
    hide DayShape, Pass;
    InitialReady(c, entry, noGrace);
    RunCapped(c, entry, entry / DAY, n, Initial(entry, noGrace));
  }
}
