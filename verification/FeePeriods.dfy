/**
 The fee over two tariff periods: which period's tariff a stay is charged by, and the fee that follows from it. Times are
 in seconds; the source compares their fixed-width text forms, which order the same way.
 */
module FeePeriods {
  import opened Tariff
  import opened FeeEngine
  import opened FeeLoop
  import opened FeeMonotone

  datatype Period = Period(tariffType: int, start: int, end: int)

  /** How a stay is charged: by one period's tariff, split between the two, or not at all. */
  datatype Plan = Single(period: int) | Split | Unusable

  /** The periods in order of start, the contexts by transaction type slot (40 slots per tariff type), the grace of a split
      stay by transaction type, and the value the second flag happens to hold before anything is stored in it. */
  datatype Station = Station(
    periods: (Period, Period), contexts: int -> Context, splitGrace: int -> int, stale: bool)

  predicate Covers(p: Period, entry: int, pay: int) {
    p.start < entry && pay < p.end
  }

  predicate Leaves(p: Period, entry: int, pay: int) {
    p.start < entry < p.end <= pay
  }

  function PlanOf(st: Station, entry: int, pay: int): Plan {
    ChosenPlan(st.periods, st.stale, entry, pay)
  }

  function ChosenPlan(periods: (Period, Period), stale: bool, entry: int, pay: int): Plan {
    var (first, second) := periods;
    if Covers(first, entry, pay) then if stale then Split else Single(0)
    else if Leaves(second, entry, pay) then Unusable
    else if Leaves(first, entry, pay) then if Covers(second, entry, pay) then Split else Single(0)
    else Single(1)
  }

  /** The flags as the source sets them: each turn of the loop first clears its own flag, which also undoes what the first
      turn stored in the second. */
  method ChoosePlan(both: (Period, Period), stale: bool, entry: int, pay: int) returns (plan: Plan)
    ensures plan == ChosenPlan(both, stale, entry, pay)
  {
    var periods := [both.0, both.1];
    var used := new bool[2](i => i == 1 && stale);
    for i := 0 to 2
      invariant i == 0 ==> used[1] == stale
      invariant i >= 1 ==> !Covers(periods[0], entry, pay) && (used[0] <==> Leaves(periods[0], entry, pay))
      invariant i >= 2 ==> !Covers(periods[1], entry, pay) && !Leaves(periods[1], entry, pay) && !used[1]
    {
      used[i] := false;
      if entry > periods[i].start {
        if periods[i].end > pay {
          used[i] := true;
          break;
        } else if entry < periods[i].end {
          if i == 0 {
            used[i], used[i + 1] := true, true;
          } else {
            return Unusable;
          }
        }
      }
    }
    plan := if used[0] && used[1] then Split else if used[0] then Single(0) else Single(1);
  }

  /** A stay is split exactly when it is entered inside both periods, leaves the first and is paid inside the second, unless
      the unset flag holds true. In particular periods that only adjoin never split a stay. */
  lemma SplitExactly(st: Station, entry: int, pay: int)
    requires !st.stale
    ensures PlanOf(st, entry, pay) == Split <==>
            Leaves(st.periods.0, entry, pay) && Covers(st.periods.1, entry, pay)
    ensures st.periods.0.end <= st.periods.1.start ==> PlanOf(st, entry, pay) != Split
  {
  }

  // A shorter stay from the same entry keeps to the same single period.
  lemma SinglePlanStable(st: Station, entry: int, pay: int, later: int)
    requires !st.stale && entry <= pay <= later && PlanOf(st, entry, later).Single?
    ensures PlanOf(st, entry, pay) == PlanOf(st, entry, later)
  {
  }

  // ---------- The fee ----------

  // An error code is returned as if it were an amount.
  function Amount(fee: Result<nat>): int {
    match fee
    case Ok(amount) => amount
    case Fault(code) => code * 100
  }

  function SlotOf(st: Station, transType: int, period: int): int {
    transType + 40 * (if period == 0 then st.periods.0 else st.periods.1).tariffType
  }

  ghost predicate StationShape(st: Station, transType: int) {
    && WellShaped(st.contexts(SlotOf(st, transType, 0)))
    && WellShaped(st.contexts(SlotOf(st, transType, 1)))
  }

  ghost function PeriodFee(st: Station, transType: int, period: int, entry: nat, pay: nat, noGrace: bool): int
    requires StationShape(st, transType)
  {
    var slot := if period == 0 then SlotOf(st, transType, 0) else SlotOf(st, transType, 1);
    Amount(ParkingFee(st.contexts(slot), entry, pay, noGrace))
  }

  /** The fee of a stay over the two periods. */
  ghost function StayFee(st: Station, transType: int, entry: nat, pay: nat, noGrace: bool): int
    requires StationShape(st, transType)
    requires 0 <= st.periods.0.end && 0 <= st.periods.1.start
  {
    match PlanOf(st, entry, pay)
    case Unusable => -400
    case Single(period) => PeriodFee(st, transType, period, entry, pay, noGrace)
    case Split =>
      if pay / 60 - entry / 60 > st.splitGrace(transType) then
        PeriodFee(st, transType, 0, entry, st.periods.0.end, true)
        + PeriodFee(st, transType, 1, st.periods.1.start, pay, true)
      else 0
  }

  // The grace of a split stay is that of the first zone of the type's first row, whatever the tariff type.
  function GraceOf(tariffs: int -> Rows, transType: int): int {
    if |tariffs(transType)[1].zones| == 9 then tariffs(transType)[1].zones[0].grace else 0
  }

  function StationOf(periods: (Period, Period), tariffs: int -> Rows, holidays: Holidays, params: Params,
                     hasPaid: (int, int) -> bool, stale: bool): Station
  {
    Station(periods, slot => ContextOf(tariffs(slot), holidays, params, slot, hasPaid),
            transType => GraceOf(tariffs, transType), stale)
  }

  lemma StationParts(periods: (Period, Period), tariffs: int -> Rows, holidays: Holidays, params: Params,
                     hasPaid: (int, int) -> bool, stale: bool, transType: int, slot: int)
    requires RowsShape(tariffs(slot)) && ParamsShape(params)
    ensures var st := StationOf(periods, tariffs, holidays, params, hasPaid, stale);
            && st.periods == periods && st.stale == stale && st.splitGrace(transType) == GraceOf(tariffs, transType)
            && st.contexts(slot) == ContextOf(tariffs(slot), holidays, params, slot, hasPaid)
            && WellShaped(st.contexts(slot))
  {
    hide RowsShape, WellShaped, ContextOf;
    ContextShape(tariffs(slot), holidays, params, slot, hasPaid);
  }

  // The fee over one period's slot, an error code becoming an amount.
  method PeriodFeeOf(tariffs: int -> Rows, holidays: Holidays, params: Params, hasPaid: (int, int) -> bool,
                     slot: int, entry: nat, pay: nat, noGrace: bool) returns (fee: int)
    requires RowsShape(tariffs(slot)) && ParamsShape(params)
    ensures var c := ContextOf(tariffs(slot), holidays, params, slot, hasPaid);
            WellShaped(c) && fee == Amount(ParkingFee(c, entry, pay, noGrace))
  {
    hide RowsShape, WellShaped, ParkingFee, ContextOf;
    var result := CalFeeRAM2GR(tariffs(slot), holidays, params, slot, hasPaid, entry, pay, noGrace);
    fee := Amount(result);
  }

  /** The fee of a stay as the source computes it, over one period or the two parts of a split stay. */
  method CalFeeRAM2G(periods: (Period, Period), tariffs: int -> Rows, holidays: Holidays, params: Params,
                     hasPaid: (int, int) -> bool, stale: bool, transType: int, entry: nat, pay: nat, noGrace: bool)
    returns (fee: int)
    requires (forall slot :: RowsShape(tariffs(slot))) && ParamsShape(params)
    requires 0 <= periods.0.end && 0 <= periods.1.start
    ensures var st := StationOf(periods, tariffs, holidays, params, hasPaid, stale);
            && StationShape(st, transType) && 0 <= st.periods.0.end && 0 <= st.periods.1.start
            && fee == StayFee(st, transType, entry, pay, noGrace)
  {
    ghost var st := StationOf(periods, tariffs, holidays, params, hasPaid, stale);
    var slot0, slot1 := transType + 40 * periods.0.tariffType, transType + 40 * periods.1.tariffType;
    hide RowsShape, WellShaped, ParkingFee, ContextOf, ChosenPlan, GraceOf, StationOf, Amount;
    StationParts(periods, tariffs, holidays, params, hasPaid, stale, transType, slot0);
    StationParts(periods, tariffs, holidays, params, hasPaid, stale, transType, slot1);
    assert SlotOf(st, transType, 0) == slot0 && SlotOf(st, transType, 1) == slot1;
    hide SlotOf;
    var plan := ChoosePlan(periods, stale, entry, pay);
    match plan
    case Unusable => fee := -400;
    case Single(period) =>
      fee := PeriodFeeOf(tariffs, holidays, params, hasPaid, if period == 0 then slot0 else slot1, entry, pay, noGrace);
    case Split =>
      fee := 0;
      if pay / 60 - entry / 60 > GraceOf(tariffs, transType) {
        var early := PeriodFeeOf(tariffs, holidays, params, hasPaid, slot0, entry, periods.0.end, true);
        var current := PeriodFeeOf(tariffs, holidays, params, hasPaid, slot1, periods.1.start, pay, true);
        fee := early + current;
      }
  }

  // ---------- Which period charges a stay ----------

  // The fee by the tariff of a type, or the error code as whole units.
  ghost function TypeFee(st: Station, transType: int, tariffType: int, entry: nat, pay: nat, noGrace: bool): int
    requires WellShaped(st.contexts(transType + 40 * tariffType))
  {
    var fee := ParkingFee(st.contexts(transType + 40 * tariffType), entry, pay, noGrace);
    if fee.Ok? then fee.value else 100 * fee.code
  }

  // Entered inside the period, and left before it ends or not.
  predicate Inside(p: Period, entry: int, pay: int) {
    p.start < entry && pay < p.end
  }

  predicate Outlasts(p: Period, entry: int, pay: int) {
    p.start < entry && entry < p.end && p.end <= pay
  }

  /** A stay is charged by the first period's tariff if it is inside that period, whatever the other one is, or outlasts it
      without having been entered inside the second; by the second's if it has nothing to do with the first. */
  lemma PeriodCharges(st: Station, transType: int, entry: nat, pay: nat, noGrace: bool)
    requires !st.stale && 0 <= st.periods.0.end && 0 <= st.periods.1.start && StationShape(st, transType)
    ensures WellShaped(st.contexts(transType + 40 * st.periods.0.tariffType))
         && WellShaped(st.contexts(transType + 40 * st.periods.1.tariffType))
    ensures var (first, second) := st.periods;
            var fee := StayFee(st, transType, entry, pay, noGrace);
            && (Inside(first, entry, pay) ==> fee == TypeFee(st, transType, first.tariffType, entry, pay, noGrace))
            && (Outlasts(first, entry, pay) && (entry <= second.start || (second.end <= entry && second.end <= pay)) ==>
                  fee == TypeFee(st, transType, first.tariffType, entry, pay, noGrace))
            && (!Inside(first, entry, pay) && !Outlasts(first, entry, pay) && !Outlasts(second, entry, pay) ==>
                  fee == TypeFee(st, transType, second.tariffType, entry, pay, noGrace))
  {
    hide WellShaped, ParkingFee;
  }

  /** A stay that outlasts the first period and ends inside the second, having been entered inside both, costs the first tariff's
      fee to the end of its period and the second's from the start of its own; nothing if its minutes are within the grace of a
      split stay. */
  lemma SplitCharges(st: Station, transType: int, entry: nat, pay: nat, noGrace: bool)
    requires 0 <= st.periods.0.end && 0 <= st.periods.1.start && StationShape(st, transType)
    requires Outlasts(st.periods.0, entry, pay) && Inside(st.periods.1, entry, pay)
    ensures WellShaped(st.contexts(transType + 40 * st.periods.0.tariffType))
         && WellShaped(st.contexts(transType + 40 * st.periods.1.tariffType))
    ensures StayFee(st, transType, entry, pay, noGrace)
         == if pay / 60 - entry / 60 <= st.splitGrace(transType) then 0
            else TypeFee(st, transType, st.periods.0.tariffType, entry, st.periods.0.end, true)
                 + TypeFee(st, transType, st.periods.1.tariffType, st.periods.1.start, pay, true)
  {
    hide WellShaped, ParkingFee;
  }

  /** That grace is the one of the first zone of the type's Monday row, in whichever periods the stay lies. */
  lemma SplitGrace(periods: (Period, Period), tariffs: int -> Rows, holidays: Holidays, params: Params,
                   hasPaid: (int, int) -> bool, stale: bool, transType: int)
    requires |tariffs(transType)[1].zones| == 9
    ensures StationOf(periods, tariffs, holidays, params, hasPaid, stale).splitGrace(transType)
         == tariffs(transType)[1].zones[0].grace
  {
  }

  /** A stay that outlasts the second period, and is not inside the first, is refused. */
  lemma RefusedStay(st: Station, transType: int, entry: nat, pay: nat, noGrace: bool)
    requires 0 <= st.periods.0.end && 0 <= st.periods.1.start && StationShape(st, transType)
    requires Outlasts(st.periods.1, entry, pay) && !Inside(st.periods.0, entry, pay)
    ensures StayFee(st, transType, entry, pay, noGrace) == -400
  {
    hide WellShaped, ParkingFee;
  }

  /** The unset flag, if it happens to hold true, splits a stay inside the first period, as if it had outlasted that; any other
      stay is charged as without it. */
  lemma StaleFlagSplits(st: Station, transType: int, entry: nat, pay: nat, noGrace: bool)
    requires 0 <= st.periods.0.end && 0 <= st.periods.1.start && StationShape(st, transType)
    ensures WellShaped(st.contexts(transType + 40 * st.periods.0.tariffType))
         && WellShaped(st.contexts(transType + 40 * st.periods.1.tariffType))
    ensures st.stale && Inside(st.periods.0, entry, pay) ==>
              StayFee(st, transType, entry, pay, noGrace)
              == if pay / 60 - entry / 60 <= st.splitGrace(transType) then 0
                 else TypeFee(st, transType, st.periods.0.tariffType, entry, st.periods.0.end, true)
                      + TypeFee(st, transType, st.periods.1.tariffType, st.periods.1.start, pay, true)
    ensures !Inside(st.periods.0, entry, pay) ==>
              StayFee(st, transType, entry, pay, noGrace) == StayFee(st.(stale := !st.stale), transType, entry, pay, noGrace)
  {
    hide WellShaped, ParkingFee;
  }

  ghost predicate MonotoneStation(st: Station, transType: int) {
    && !st.stale
    && 0 <= st.periods.0.end && 0 <= st.periods.1.start
    && MonotoneTariff(st.contexts(SlotOf(st, transType, 0)))
    && MonotoneTariff(st.contexts(SlotOf(st, transType, 1)))
  }

  /** Within one tariff period, parking longer never costs less and never costs a negative amount. */
  lemma StayFeeMonotone(st: Station, transType: int, entry: nat, pay: nat, later: nat, noGrace: bool)
    requires MonotoneStation(st, transType)
    requires entry <= pay <= later && PlanOf(st, entry, later).Single?
    ensures StationShape(st, transType)
    ensures 0 <= StayFee(st, transType, entry, pay, noGrace) <= StayFee(st, transType, entry, later, noGrace)
  {
    SinglePlanStable(st, entry, pay, later);
    var plan := PlanOf(st, entry, later);
    var c := st.contexts(SlotOf(st, transType, plan.period));
    hide PlanOf, WellShaped, ParkingFee;
    assert MonotoneTariff(c);
    ParkingLongerNeverCostsLess(c, entry, pay, later, noGrace);
  }
}
