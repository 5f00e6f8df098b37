/**
 What a redemption ticket worth time is worth in money: when it is no more than the fee it is redeemed from, when no more
 than the fee of its own minutes, and that both follow at a desk that charges by the fee engine.
 */
module Redemption {
  import opened Common
  import opened FeeEngine
  import opened FeePeriods
  import FeeMonotone
  import S = Settlement

  function Until(x: S.Exit, now: int): int {
    S.ExitTimeOr(x, now)
  }

  // The end of the ticket's own minutes, counted from entry.
  function WorthUntil(x: S.Exit): int {
    x.entryTime + x.redeemTime * 60
  }

  // A time ticket that is still to be turned into money, of an exit with an entry.
  predicate Redeems(x: S.Exit, until: int) {
    x.noEntry == 0 && x.redeemTime > 0 && x.redeemAmt <= 0 && x.entryTime <= until
  }

  /** The ticket's minutes reach the stored parked minutes, or end no later than the stay. */
  predicate TicketFits(x: S.Exit, until: int) {
    x.redeemTime >= S.ParkedMinutes(x, until) || WorthUntil(x) <= until
  }

  // ---------- Any monotone fees ----------

  // From the entry on, fees are not negative and do not fall.
  ghost predicate MonotoneFrom(feeOf: S.FeeTable, vehicle: int, entry: int, until: int) {
    forall pay {:trigger feeOf(vehicle, entry, pay)} | entry <= pay <= until ::
      0 <= feeOf(vehicle, entry, pay) <= feeOf(vehicle, entry, until)
  }

  ghost predicate MonotoneFees(feeOf: S.FeeTable) {
    forall vehicle, entry, until | entry <= until ::
      MonotoneFrom(feeOf, vehicle, entry, until)
  }

  // The exit charged for the stay from entry to until.
  function Charged(feeOf: S.FeeTable, x: S.Exit, until: int): S.Exit {
    x.(fee := feeOf(x.vehicle, x.entryTime, until))
  }

  predicate WithinFee(feeOf: S.FeeTable, x: S.Exit, now: int) {
    var y := S.RedeemTime2Amt(feeOf, Charged(feeOf, x, Until(x, now)), now);
    0 <= y.redeemAmt <= y.fee
  }

  predicate WithinItsMinutes(feeOf: S.FeeTable, x: S.Exit, now: int) {
    S.RedeemTime2Amt(feeOf, Charged(feeOf, x, Until(x, now)), now).redeemAmt <= feeOf(x.vehicle, x.entryTime, WorthUntil(x))
  }

  lemma FitsWithinFee(feeOf: S.FeeTable, x: S.Exit, now: int)
    requires Redeems(x, Until(x, now)) && TicketFits(x, Until(x, now))
    requires MonotoneFrom(feeOf, x.vehicle, x.entryTime, Until(x, now))
    ensures WithinFee(feeOf, x, now)
  {
    var until := Until(x, now);
    assert 0 <= feeOf(x.vehicle, x.entryTime, until);
    if WorthUntil(x) <= until {
      assert 0 <= feeOf(x.vehicle, x.entryTime, WorthUntil(x)) <= feeOf(x.vehicle, x.entryTime, until);
    }
    hide MonotoneFrom;
  }

  // Fees by the second.
  function Elapsed(vehicle: int, entry: int, pay: int): int {
    if pay >= entry then pay - entry else 0
  }

  lemma ElapsedIsMonotone()
    ensures MonotoneFees(Elapsed)
  {
    var feeOf: S.FeeTable := Elapsed;
    forall vehicle, entry, until | entry <= until
      ensures MonotoneFrom(feeOf, vehicle, entry, until)
    {
      forall pay {:trigger feeOf(vehicle, entry, pay)} | entry <= pay <= until
        ensures 0 <= feeOf(vehicle, entry, pay) <= feeOf(vehicle, entry, until)
      {
        assert feeOf(vehicle, entry, pay) == Elapsed(vehicle, entry, pay);
      }
    }
  }

  /** A time ticket is worth no more than the fee under all monotone fees exactly when its minutes reach the stored parked
      minutes or end no later than the stay. */
  lemma WithinFeeExactly(x: S.Exit, now: int)
    requires Redeems(x, Until(x, now))
    ensures (forall feeOf: S.FeeTable | MonotoneFees(feeOf) :: WithinFee(feeOf, x, now)) <==> TicketFits(x, Until(x, now))
  {
    var until := Until(x, now);
    if TicketFits(x, until) {
      forall feeOf: S.FeeTable | MonotoneFees(feeOf) ensures WithinFee(feeOf, x, now) {
        assert MonotoneFrom(feeOf, x.vehicle, x.entryTime, until);
        FitsWithinFee(feeOf, x, now);
      }
    } else {
      ElapsedIsMonotone();
      assert !WithinFee(Elapsed, x, now);
    }
  }

  /** It is worth no more than the fee of its own minutes exactly when these are less than the stored parked minutes or reach
      the end of the stay. Stored minutes that are too few, such as the -1 of an exit first seen without entry, redeem the
      whole fee. */
  lemma WithinItsMinutesExactly(x: S.Exit, now: int)
    requires Redeems(x, Until(x, now))
    ensures (forall feeOf: S.FeeTable | MonotoneFees(feeOf) :: WithinItsMinutes(feeOf, x, now))
       <==> x.redeemTime < S.ParkedMinutes(x, Until(x, now)) || Until(x, now) <= WorthUntil(x)
  {
    var until, worth := Until(x, now), WorthUntil(x);
    if x.redeemTime < S.ParkedMinutes(x, until) || until <= worth {
      forall feeOf: S.FeeTable | MonotoneFees(feeOf) ensures WithinItsMinutes(feeOf, x, now) {
        assert MonotoneFrom(feeOf, x.vehicle, x.entryTime, worth);
        assert 0 <= feeOf(x.vehicle, x.entryTime, worth);
        if until <= worth { assert feeOf(x.vehicle, x.entryTime, until) <= feeOf(x.vehicle, x.entryTime, worth); }
        hide MonotoneFees, MonotoneFrom;
      }
    } else {
      ElapsedIsMonotone();
      assert !WithinItsMinutes(Elapsed, x, now);
    }
  }

  // ---------- The charged stay, from the plate on ----------

  // Less than the parked minutes, counted from entry, end before the stay does.
  lemma RedeemedTimeFits(entry: int, until: int, minutes: nat)
    requires minutes < S.MinutesBetween(entry, until)
    ensures entry + minutes * 60 <= until
  {
  }

  /** The record of a charged stay: its fee and its parked minutes are those from entry to exit. */
  predicate ChargedStay(feeOf: S.FeeTable, x: S.Exit) {
    && x.noEntry == 0 && x.exitTime != S.UNKNOWN && 0 <= x.entryTime <= x.exitTime
    && x.fee == feeOf(x.vehicle, x.entryTime, x.exitTime)
    && x.parked == S.MinutesBetween(x.entryTime, x.exitTime)
  }

  predicate NoSeason(season: S.Season) {
    season.code != 2 && !S.OpenSeason(season.code)
  }

  /** An event that does not change the entry: no new entry time, no season, and the clock is past the entry. */
  predicate KeepsEntry(x: S.Exit, e: S.Event) {
    match e
    case PlateRead(_, check, now, _) => NoSeason(check.lookup.season) && x.entryTime <= now && now != S.UNKNOWN
    case CardRead(_, check, now, _) => NoSeason(check.lookup.season) && x.entryTime <= now && now != S.UNKNOWN
    case EntryReceived(_, _, _) => false
    case Cleared => false
    case _ => true
  }

  // A plate that finds its entry makes the record one of a charged stay.
  lemma ChargeMakesStay(feeOf: S.FeeTable, x: S.Exit, lookup: S.Lookup, now: int)
    requires x.noEntry == 0 && 0 <= x.entryTime <= now && NoSeason(lookup.season)
    ensures var charged := S.FeeAtExit(feeOf, x, lookup, now); charged.Some? && ChargedStay(feeOf, charged.value)
  {
  }

  // The same stay as before, still charged.
  predicate SameStay(feeOf: S.FeeTable, x: S.Exit, y: S.Exit) {
    ChargedStay(feeOf, x) ==> ChargedStay(feeOf, y) && y.entryTime == x.entryTime
  }

  lemma SaveKeepsStay(feeOf: S.FeeTable, d: S.Desk, ok: bool)
    ensures SameStay(feeOf, d.exit, S.SaveExit(d, ok).exit)
  {
  }

  lemma TicketOkKeepsStay(feeOf: S.FeeTable, d: S.Desk, ok: bool)
    ensures SameStay(feeOf, d.exit, S.TicketOk(d, ok).exit)
  {
    var x := d.exit.(paid := 0);
    SaveKeepsStay(feeOf, d.(exit := if S.FreeTicket(x) then S.MakeComplimentary(x) else x), ok);
    hide S.SaveExit;
  }

  lemma RedeemTimeKeepsStay(feeOf: S.FeeTable, x: S.Exit, now: int)
    ensures SameStay(feeOf, x, S.RedeemTime2Amt(feeOf, x, now))
  {
  }

  // What closing and redeeming leave of a charged stay.
  lemma ClosingKeepsStay(feeOf: S.FeeTable, ok: bool, now: int)
    ensures forall d: S.Desk {:trigger S.SaveExit(d, ok)} :: SameStay(feeOf, d.exit, S.SaveExit(d, ok).exit)
    ensures forall d: S.Desk {:trigger S.TicketOk(d, ok)} :: SameStay(feeOf, d.exit, S.TicketOk(d, ok).exit)
    ensures forall x: S.Exit {:trigger S.RedeemTime2Amt(feeOf, x, now)} :: SameStay(feeOf, x, S.RedeemTime2Amt(feeOf, x, now))
  {
    forall d: S.Desk {:trigger S.SaveExit(d, ok)} ensures SameStay(feeOf, d.exit, S.SaveExit(d, ok).exit) {
      SaveKeepsStay(feeOf, d, ok);
    }
    forall d: S.Desk {:trigger S.TicketOk(d, ok)} ensures SameStay(feeOf, d.exit, S.TicketOk(d, ok).exit) {
      TicketOkKeepsStay(feeOf, d, ok);
    }
    forall x: S.Exit {:trigger S.RedeemTime2Amt(feeOf, x, now)} ensures SameStay(feeOf, x, S.RedeemTime2Amt(feeOf, x, now)) {
      RedeemTimeKeepsStay(feeOf, x, now);
    }
  }

  lemma ChargeKeepsStay(feeOf: S.FeeTable, d: S.Desk, lookup: S.Lookup, now: int, ok: bool)
    requires d.exit.noEntry == 0 && 0 <= d.exit.entryTime <= now && NoSeason(lookup.season)
    ensures var x := S.ChargeExit(feeOf, d, lookup, now, ok).exit; ChargedStay(feeOf, x) && x.entryTime == d.exit.entryTime
  {
    ClosingKeepsStay(feeOf, ok, now);
    ChargeMakesStay(feeOf, d.exit, lookup, now);
    var charged := S.FeeAtExit(feeOf, d.exit, lookup, now).value;
    assert charged.entryTime == d.exit.entryTime;
    hide S.SaveExit, S.RedeemTime2Amt, S.FeeAtExit;
  }

  lemma NumberKeepsStay(feeOf: S.FeeTable, d: S.Desk, number: string, check: S.Check, now: int, ok: bool)
    requires ChargedStay(feeOf, d.exit) && NoSeason(check.lookup.season) && d.exit.entryTime <= now
    ensures SameStay(feeOf, d.exit, S.CheckNumber(feeOf, d, number, check, now, ok).exit)
  {
    ClosingKeepsStay(feeOf, ok, now);
    ChargeKeepsStay(feeOf, d.(exit := S.Arrive(d.exit, number, check.lookup)), check.lookup, now, ok);
    hide S.SaveExit, S.ChargeExit;
  }

  lemma TicketKeepsStay(feeOf: S.FeeTable, d: S.Desk, ticket: S.Ticket, now: int, ok: bool)
    requires ChargedStay(feeOf, d.exit)
    ensures SameStay(feeOf, d.exit, S.TicketScan(feeOf, d, ticket, now, ok).exit)
  {
    ClosingKeepsStay(feeOf, ok, now);
    hide S.SaveExit, S.TicketOk, S.RedeemTime2Amt;
  }

  lemma StepKeepsStay(feeOf: S.FeeTable, d: S.Desk, e: S.Event)
    requires ChargedStay(feeOf, d.exit) && KeepsEntry(d.exit, e)
    ensures SameStay(feeOf, d.exit, S.Step(feeOf, d, e).exit)
  {
    hide S.CheckNumber, S.SaveExit, S.TicketScan;
    match e
    case PlateRead(plate, check, now, ok) => NumberKeepsStay(feeOf, d, plate, check, now, ok);
    case CardRead(number, check, now, ok) =>
      NumberKeepsStay(feeOf, d.(exit := d.exit.(card := number)), number, check, now, ok);
    case TicketScanned(ticket, now, ok) => TicketKeepsStay(feeOf, d, ticket, now, ok);
    case PaySucceeded(_, ok) => ClosingKeepsStay(feeOf, ok, 0);
    case PayRefused =>
  }

  predicate KeepEntry(x: S.Exit, events: seq<S.Event>) {
    forall e :: e in events ==> KeepsEntry(x, e)
  }

  /** A charged stay stays one over every run of events without a new entry time, a season or a cleared desk. */
  lemma {:induction false} RunKeepsStay(feeOf: S.FeeTable, d: S.Desk, events: seq<S.Event>)
    requires ChargedStay(feeOf, d.exit) && KeepEntry(d.exit, events)
    ensures ChargedStay(feeOf, S.Run(feeOf, d, events).exit)
    decreases |events|
  {
    hide S.Step, ChargedStay;
    if events != [] {
      assert events[0] in events && forall e :: e in events[1..] ==> e in events;
      StepKeepsStay(feeOf, d, events[0]);
      assert SameStay(feeOf, d.exit, S.Step(feeOf, d, events[0]).exit);
      RunKeepsStay(feeOf, S.Step(feeOf, d, events[0]), events[1..]);
    }
  }

  // On a charged stay every time ticket fits.
  lemma StayFits(feeOf: S.FeeTable, x: S.Exit)
    requires ChargedStay(feeOf, x) && x.redeemTime > 0
    ensures TicketFits(x, x.exitTime)
  {
    if x.redeemTime < S.MinutesBetween(x.entryTime, x.exitTime) {
      RedeemedTimeFits(x.entryTime, x.exitTime, x.redeemTime);
    }
  }

  // ---------- Fees by the engine ----------

  /** The desk's fees are the fee engine's, for one vehicle type; grace always applies at the desk. */
  ghost predicate ChargesBy(st: Station, feeOf: S.FeeTable, vehicle: int)
    requires MonotoneStation(st, vehicle)
  {
    forall entry: nat, pay: nat {:trigger feeOf(vehicle, entry, pay)} | entry <= pay ::
      StationShape(st, vehicle) && feeOf(vehicle, entry, pay) == StayFee(st, vehicle, entry, pay, false)
  }

  // The stay is charged by one period of a station whose fees do not fall.
  ghost predicate OnePeriod(st: Station, feeOf: S.FeeTable, vehicle: int, entry: int, until: int) {
    && MonotoneStation(st, vehicle) && ChargesBy(st, feeOf, vehicle)
    && 0 <= entry <= until && PlanOf(st, entry, until).Single?
  }

  lemma FeeWithin(st: Station, feeOf: S.FeeTable, vehicle: int, entry: nat, worth: nat, until: nat)
    requires OnePeriod(st, feeOf, vehicle, entry, until) && entry <= worth <= until
    ensures 0 <= feeOf(vehicle, entry, worth) <= feeOf(vehicle, entry, until)
  {
    StayFeeMonotone(st, vehicle, entry, worth, until, false);
    hide MonotoneStation, StationShape, StayFee;
  }

  lemma EngineMonotone(st: Station, feeOf: S.FeeTable, vehicle: int, entry: nat, until: nat)
    requires OnePeriod(st, feeOf, vehicle, entry, until)
    ensures MonotoneFrom(feeOf, vehicle, entry, until)
  {
    forall pay {:trigger feeOf(vehicle, entry, pay)} | entry <= pay <= until
      ensures 0 <= feeOf(vehicle, entry, pay) <= feeOf(vehicle, entry, until)
    {
      FeeWithin(st, feeOf, vehicle, entry, pay, until);
      hide OnePeriod;
    }
  }

  /** Redeemed time is worth between nothing and the whole fee of a stay within one tariff period, also where the whole fee
      would be redeemed and the fee of the remaining time is taken off again, for every record whose ticket fits. */
  lemma RedeemedWithinFee(st: Station, feeOf: S.FeeTable, x: S.Exit, now: int)
    requires Redeems(x, Until(x, now)) && TicketFits(x, Until(x, now))
    requires OnePeriod(st, feeOf, x.vehicle, x.entryTime, Until(x, now))
    requires x.fee == feeOf(x.vehicle, x.entryTime, Until(x, now))
    ensures 0 <= S.RedeemTime2Amt(feeOf, x, now).redeemAmt <= x.fee
  {
    assert 0 <= x.entryTime <= Until(x, now);
    EngineMonotone(st, feeOf, x.vehicle, x.entryTime, Until(x, now));
    hide OnePeriod, MonotoneFrom, S.RedeemTime2Amt;
    FitsWithinFee(feeOf, x, now);
    assert Charged(feeOf, x, Until(x, now)) == x;
  }

  /** So over the runs of the desk: from a charged stay, after any events but a new entry time, a season or a cleared desk, a
      time ticket that is scanned takes off between nothing and the fee. */
  lemma ScannedTicketWithinFee(st: Station, feeOf: S.FeeTable, d: S.Desk, events: seq<S.Event>, number: string,
                               minutes: int, now: int)
    requires ChargedStay(feeOf, d.exit) && KeepEntry(d.exit, events)
    requires var x := S.Run(feeOf, d, events).exit;
             x.redeemAmt == 0 && OnePeriod(st, feeOf, x.vehicle, x.entryTime, x.exitTime)
    ensures var x := S.Run(feeOf, d, events).exit;
            0 <= S.Redeem(feeOf, x, S.RedeemTime(number, minutes), now).redeemAmt <= x.fee
  {
    RunKeepsStay(feeOf, d, events);
    var x := S.Run(feeOf, d, events).exit;
    hide S.Run, OnePeriod;
    var y := x.(redeemNo := number, redeemTime := minutes);
    EngineMonotoneAt(st, feeOf, x);
    if minutes > 0 && x.paid > 0 {
      StayFits(feeOf, y);
      RedeemedWithinFee(st, feeOf, y, now);
      hide S.RedeemTime2Amt;
    }
  }

  lemma EngineMonotoneAt(st: Station, feeOf: S.FeeTable, x: S.Exit)
    requires ChargedStay(feeOf, x) && OnePeriod(st, feeOf, x.vehicle, x.entryTime, x.exitTime)
    ensures 0 <= x.fee
  {
    FeeWithin(st, feeOf, x.vehicle, x.entryTime, x.exitTime, x.exitTime);
  }

  /** And at the plate: a time ticket that waits takes off at most the fee, and what is owed stays to pay. */
  lemma WaitingTicketWithinFee(st: Station, feeOf: S.FeeTable, x: S.Exit, lookup: S.Lookup, now: int)
    requires x.noEntry == 0 && NoSeason(lookup.season) && OnePeriod(st, feeOf, x.vehicle, x.entryTime, now)
    requires x.redeemTime > 0 && x.redeemAmt == 0
    ensures var charged := S.FeeAtExit(feeOf, x, lookup, now).value;
            var y := S.SettleFee(feeOf, charged, now);
            && 0 <= y.redeemAmt <= y.fee == charged.fee
            && y.paid == S.AtLeastZero(y.fee - y.redeemAmt + y.owe - y.rebate)
            && (y.owe >= y.rebate ==> y.paid >= y.owe - y.rebate)
  {
    assert 0 <= x.entryTime <= now;
    ChargeMakesStay(feeOf, x, lookup, now);
    var charged := S.FeeAtExit(feeOf, x, lookup, now).value;
    StayFits(feeOf, charged);
    RedeemedWithinFee(st, feeOf, charged, now);
    hide OnePeriod, TicketFits;
  }

  // ---------- Settlement under the engine's fees ----------

  // The desk's fees are the fee engine's, for every vehicle type.
  ghost predicate EngineDesk(st: Station, feeOf: S.FeeTable) {
    forall vehicle :: MonotoneStation(st, vehicle) && ChargesBy(st, feeOf, vehicle)
  }

  lemma PeriodFeeNotNegative(st: Station, vehicle: int, period: int, entry: nat, pay: nat, noGrace: bool)
    requires MonotoneStation(st, vehicle)
    ensures StationShape(st, vehicle) && PeriodFee(st, vehicle, period, entry, pay, noGrace) >= 0
  {
    var slot := if period == 0 then SlotOf(st, vehicle, 0) else SlotOf(st, vehicle, 1);
    hide ParkingFee;
    FeeMonotone.ParkingLongerNeverCostsLess(st.contexts(slot), entry, pay, pay, noGrace);
  }

  /** The engine's fee is negative, its error code, exactly when neither period can charge the stay. */
  lemma EngineRefusesExactly(st: Station, feeOf: S.FeeTable, vehicle: int, entry: nat, pay: nat)
    requires MonotoneStation(st, vehicle) && ChargesBy(st, feeOf, vehicle) && entry <= pay
    ensures feeOf(vehicle, entry, pay) < 0 <==> PlanOf(st, entry, pay).Unusable?
  {
    var ends := st.periods.0.end >= 0 && st.periods.1.start >= 0;
    assert ends;
    assert StationShape(st, vehicle) && feeOf(vehicle, entry, pay) == StayFee(st, vehicle, entry, pay, false);
    hide MonotoneStation, StationShape, ChargesBy, PeriodFee, PlanOf;
    match PlanOf(st, entry, pay)
    case Unusable =>
    case Single(period) => PeriodFeeNotNegative(st, vehicle, period, entry, pay, false);
    case Split =>
      PeriodFeeNotNegative(st, vehicle, 0, entry, st.periods.0.end, true);
      PeriodFeeNotNegative(st, vehicle, 1, st.periods.1.start, pay, true);
  }

  // The minutes of a ticket scanned without an entry can be charged by a period.
  predicate MinutesUsable(st: Station, x: S.Exit, e: S.Event) {
    e.TicketScanned? && e.ticket.RedeemTime? && x.noEntry == 1 && x.paid > 0 && e.ticket.minutes > 0 ==>
      var until := Until(x, e.now);
      0 <= until - e.ticket.minutes * 60 && !PlanOf(st, until - e.ticket.minutes * 60, until).Unusable?
  }

  // A run of such events that neither defers a debt nor waives one.
  ghost predicate UsableRun(st: Station, feeOf: S.FeeTable, d: S.Desk, events: seq<S.Event>)
    decreases |events|
  {
    events == [] ||
    (S.WellFormed(events[0]) && MinutesUsable(st, d.exit, events[0])
     && !S.DefersDue(feeOf, d, events[0]) && !S.WaivesRefused(d, events[0])
     && UsableRun(st, feeOf, S.Step(feeOf, d, events[0]), events[1..]))
  }

  lemma UsablePlan(st: Station, x: S.Exit, e: S.Event)
    requires MinutesUsable(st, x, e)
    requires e.TicketScanned? && e.ticket.RedeemTime? && x.noEntry == 1 && x.paid > 0 && e.ticket.minutes > 0
    ensures var until := Until(x, e.now);
            var start := until - e.ticket.minutes * 60;
            0 <= start <= until && !PlanOf(st, start, until).Unusable?
  {
    hide PlanOf;
  }

  lemma EngineOf(st: Station, feeOf: S.FeeTable, vehicle: int)
    requires EngineDesk(st, feeOf)
    ensures MonotoneStation(st, vehicle) && ChargesBy(st, feeOf, vehicle)
  {
    hide MonotoneStation, ChargesBy;
  }

  // What is refused, when no rebate is granted: the minutes of a ticket scanned without an entry.
  lemma RefusedFee(feeOf: S.FeeTable, d: S.Desk, e: S.Event)
    requires S.Kept(d) && d.exit.rebate == 0 && S.RedeemsRefused(feeOf, d, e)
    ensures e.TicketScanned? && e.ticket.RedeemTime? && d.exit.noEntry == 1 && d.exit.paid > 0 && e.ticket.minutes > 0
    ensures var until := Until(d.exit, e.now); feeOf(d.exit.vehicle, until - e.ticket.minutes * 60, until) < 0
  {
    S.RefusedOnlyByTicket(feeOf, d, e);
    hide S.Kept;
  }

  lemma UsableEvent(st: Station, feeOf: S.FeeTable, d: S.Desk, e: S.Event)
    requires EngineDesk(st, feeOf) && S.Kept(d) && d.exit.rebate == 0 && MinutesUsable(st, d.exit, e)
    ensures !S.RedeemsRefused(feeOf, d, e)
  {
    hide *;
    if S.RedeemsRefused(feeOf, d, e) {
      RefusedFee(feeOf, d, e);
      UsablePlan(st, d.exit, e);
      EngineOf(st, feeOf, d.exit.vehicle);
      var until := Until(d.exit, e.now);
      EngineRefusesExactly(st, feeOf, d.exit.vehicle, until - e.ticket.minutes * 60, until);
    }
  }

  /** At a desk that charges by the fee engine every order of events conserves money, over all stays whether charged by one
      period, split or refused, as long as no ticket is put aside while an amount is due, no minutes that no period can
      charge are redeemed without an entry, and no complimentary ticket closes an exit with a refused redemption. */
  lemma {:induction false} EngineDeskConserves(st: Station, feeOf: S.FeeTable, d: S.Desk, events: seq<S.Event>)
    requires EngineDesk(st, feeOf) && S.Kept(d) && d.exit.rebate == 0 && UsableRun(st, feeOf, d, events)
    ensures S.Regular(feeOf, d, events) && S.Kept(S.Run(feeOf, d, events))
    decreases |events|
  {
    if events != [] {
      UsableEvent(st, feeOf, d, events[0]);
      S.StepKeeps(feeOf, d, events[0]);
      S.NoRebateGranted(feeOf, d, events[0]);
      hide S.Step, S.Kept, S.DefersDue, S.WaivesRefused, S.RedeemsRefused, EngineDesk, MinutesUsable;
      EngineDeskConserves(st, feeOf, S.Step(feeOf, d, events[0]), events[1..]);
    }
  }

  // ---------- A new entry time ----------

  // 5.00 for each half hour begun, at most 10.00.
  function HalfHours(vehicle: int, entry: int, pay: int): int {
    if pay <= entry then 0 else if pay - entry <= 1800 then 500 else 1000
  }

  function KnownEntry(entryTime: int): S.Check {
    S.Check({}, false, S.Lookup(false, Some((entryTime, 0)), None, 0, S.NO_SEASON, false))
  }

  /** A new entry time keeps the old parked minutes, and then a ticket can redeem more than the fee: after a stay of 100
      minutes was charged and a ticket of 50 minutes brought nothing, an entry 20 minutes ago is charged 5.00, of which
      the ticket redeems 10.00. */
  lemma StaleMinutesRedeemTooMuch(plate: string, number: string, start: nat, last: S.Last)
    requires plate != "" && plate != S.NO_PLATE
    ensures MonotoneFees(HalfHours)
    ensures var now := start + 6000;
            var events := [S.PlateRead(plate, KnownEntry(start), now, true),
                           S.TicketScanned(S.RedeemTime(number, 50), now, true)];
            var d := S.Run(HalfHours, S.Desk(S.CLEAR_EXIT, [], last, false), events);
            var x := S.Recharge(HalfHours, d.exit, start + 4800, now);
            && d.exit.fee == 1000 && d.exit.redeemAmt == 0 && d.exit.paid == 1000
            && x.fee == 500 && x.parked == 100 && S.RedeemTime2Amt(HalfHours, x, now).redeemAmt == 1000
  {
    var now := start + 6000;
    var e1, e2 := S.PlateRead(plate, KnownEntry(start), now, true), S.TicketScanned(S.RedeemTime(number, 50), now, true);
    var d0 := S.Desk(S.CLEAR_EXIT, [], last, false);
    var d1 := FirstCharge(d0, plate, start);
    var d2 := UselessTicket(d1, number, start);
    HalfHoursMonotone();
    hide S.ReadPlate, S.TicketScan;
    assert S.Step(HalfHours, d0, e1) == d1 && S.Step(HalfHours, d1, e2) == d2;
    hide S.Step, MonotoneFees;
    assert S.Run(HalfHours, d0, []) == d0;
    S.RunMore(HalfHours, d0, [], e1);
    S.RunMore(HalfHours, d0, [] + [e1], e2);
    assert [] + [e1] + [e2] == [e1, e2];
  }

  lemma HalfHoursMonotone()
    ensures MonotoneFees(HalfHours)
  {
    var feeOf: S.FeeTable := HalfHours;
    forall vehicle, entry, until | entry <= until
      ensures MonotoneFrom(feeOf, vehicle, entry, until)
    {
      forall pay {:trigger feeOf(vehicle, entry, pay)} | entry <= pay <= until
        ensures 0 <= feeOf(vehicle, entry, pay) <= feeOf(vehicle, entry, until)
      {
        assert feeOf(vehicle, entry, pay) == HalfHours(vehicle, entry, pay);
      }
    }
  }

  // The exit charged for 100 minutes.
  function HundredMinutes(plate: string, start: int): S.Exit {
    S.CLEAR_EXIT.(plate := plate, entryTime := start, exitTime := start + 6000, noEntry := 0, parked := 100,
                  fee := 1000, paid := 1000)
  }

  lemma FirstCharge(d: S.Desk, plate: string, start: nat) returns (next: S.Desk)
    requires d.exit == S.CLEAR_EXIT && !d.saved
    requires plate != "" && plate != S.NO_PLATE
    ensures next == S.ReadPlate(HalfHours, d, plate, KnownEntry(start), start + 6000, true)
    ensures next == d.(exit := HundredMinutes(plate, start))
  {
    var now, lookup := start + 6000, KnownEntry(start).lookup;
    next := S.PBSExit(HalfHours, d, plate, lookup, now, true);
    var x := S.Arrive(d.exit, plate, lookup);
    assert x == d.exit.(plate := plate, entryTime := start, noEntry := 0);
    var y := S.FeeAtExit(HalfHours, x, lookup, now).value;
    assert y == x.(exitTime := now, parked := 100, fee := 1000);
    assert S.SettleFee(HalfHours, y, now) == y.(paid := 1000);
    hide S.SaveExit, S.SettleFee, S.FeeAtExit, S.Arrive;
  }

  lemma UselessTicket(d: S.Desk, number: string, start: nat) returns (next: S.Desk)
    requires d.exit == HundredMinutes(d.exit.plate, start) && d.exit.plate != ""
    ensures next == S.TicketScan(HalfHours, d, S.RedeemTime(number, 50), start + 6000, true)
    ensures next == d.(exit := d.exit.(redeemNo := number, redeemTime := 50))
  {
    var ticket := S.RedeemTime(number, 50);
    var x := S.Redeem(HalfHours, d.exit, ticket, start + 6000);
    assert x == d.exit.(redeemNo := number, redeemTime := 50);
    hide S.Redeem, S.TicketOk;
    next := S.TicketScan(HalfHours, d, ticket, start + 6000, true);
  }
}
