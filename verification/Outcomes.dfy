/**
 What each event of the exit desk comes to: which exits are closed and with what record, which are left waiting and for how
 much, and which events change nothing.
 */
module Outcomes {
  import opened Common
  import opened Settlement

  // The exit is stored as one more record: with this amount paid and redeemed, and free of payment or not.
  predicate Closes(d: Desk, next: Desk, x: Exit, paid: int, redeemed: int, exempt: bool) {
    && next.saved && |next.stored| == |d.stored| + 1 && next.stored[..|d.stored|] == d.stored
    && next.stored[|d.stored|]
       == Record(x.plate, x.fee, x.owe, paid, x.rebate, AtMost(redeemed, x.fee + x.owe - x.rebate),
                 if x.noEntry == 0 && x.parked <= 0 then x.exitTime / 60 - x.entryTime / 60 else x.parked, exempt)
  }

  function AtMost(amount: int, limit: int): int {
    if amount <= limit then amount else limit
  }

  // Nothing is stored, and this much is to pay.
  predicate Waiting(d: Desk, next: Desk, paid: int) {
    next.stored == d.stored && next.saved == d.saved && next.last == d.last && next.exit.paid == paid
  }

  // What is left to pay once so much is redeemed.
  function Left(x: Exit, worth: int): int {
    x.fee + x.owe - x.rebate - worth
  }

  lemma SaveCloses(d: Desk, ok: bool)
    requires d.exit.plate != ""
    ensures Closes(d, SaveExit(d, ok), d.exit, d.exit.paid, d.exit.redeemAmt, d.exit.exempt)
    ensures var next := SaveExit(d, ok);
            && next.last == Last(if ok then d.exit.plate else d.last.plate, d.last.paid || d.exit.paid == 0,
                                 if d.exit.paid == 0 then d.exit.card else d.last.card)
            && next.exit == d.exit.(redeemAmt := AtMost(d.exit.redeemAmt, Left(d.exit, 0)), parked := next.exit.parked)
  {
  }

  // ---------- Tickets ----------

  // What a redemption ticket is worth at once: minutes only count while an amount is due.
  function WorthNow(feeOf: FeeTable, x: Exit, ticket: Ticket, now: int): int
    requires ticket.RedeemTime? || ticket.RedeemAmount?
  {
    if ticket.RedeemTime? && x.paid <= 0 then 0 else TicketWorth(feeOf, x, ticket, now)
  }

  lemma TicketOkCloses(d: Desk, ok: bool)
    requires d.exit.plate != ""
    ensures Closes(d, TicketOk(d, ok), d.exit, 0, d.exit.redeemAmt,
                   d.exit.exempt || (d.exit.redeemNo != "" && d.exit.redeemAmt == 0))
  {
    var x := d.exit.(paid := 0);
    SaveCloses(d.(exit := if FreeTicket(x) then MakeComplimentary(x) else x), ok);
    hide SaveExit;
  }

  /** A redemption ticket on an identified exit closes it if and only if nothing is left to pay; otherwise exactly what is left is
      to pay. A ticket worth nothing that closes an exit closes it as complimentary. */
  lemma RedemptionOutcome(feeOf: FeeTable, d: Desk, ticket: Ticket, now: int, ok: bool)
    requires d.exit.plate != "" && d.exit.redeemAmt == 0
    requires (ticket.RedeemTime? || ticket.RedeemAmount?) && ticket.number != ""
    ensures var next, worth := TicketScan(feeOf, d, ticket, now, ok), WorthNow(feeOf, d.exit, ticket, now);
            if Left(d.exit, worth) <= 0 then
              Closes(d, next, d.exit.(parked := next.exit.parked), 0, worth, d.exit.exempt || worth == 0)
            else Waiting(d, next, Left(d.exit, worth)) && next.exit.redeemAmt == worth && next.exit.plate == d.exit.plate
  {
    var x := Redeem(feeOf, d.exit, ticket, now);
    RedeemWorth(feeOf, d.exit, ticket, now);
    assert TicketScan(feeOf, d, ticket, now, ok) == ScanRedemption(feeOf, d, ticket, now, ok) by {
      hide ScanRedemption, Redeem, WorthNow;
    }
    hide Redeem, TicketWorth, TicketScan, TicketOk;
    if Due(x) <= 0 {
      ShownCloses(d, x, ok);
      hide ShowFee;
      SameRecord(d, TicketOk(d.(exit := ShowFee(x)), ok), x, d.exit);
      hide Closes;
    }
  }

  // With nothing left to pay, the exit is closed with the minutes parked that are left on it.
  lemma ShownCloses(d: Desk, x: Exit, ok: bool)
    requires x.plate != ""
    ensures var next := TicketOk(d.(exit := ShowFee(x)), ok);
            Closes(d, next, x.(parked := next.exit.parked), 0, x.redeemAmt, x.exempt || (x.redeemNo != "" && x.redeemAmt == 0))
  {
    var shown := d.(exit := ShowFee(x));
    TicketOkCloses(shown, ok);
    ParkedOfClosed(shown, ok);
    hide TicketOk;
  }

  // The record does not depend on what was redeemed or due before.
  lemma SameRecord(d: Desk, next: Desk, x: Exit, y: Exit)
    requires x == y.(redeemNo := x.redeemNo, redeemTime := x.redeemTime, parked := x.parked, redeemAmt := x.redeemAmt)
    requires Closes(d, next, x.(parked := next.exit.parked), 0, x.redeemAmt, x.exempt || (x.redeemNo != "" && x.redeemAmt == 0))
    ensures Closes(d, next, y.(parked := next.exit.parked), 0, x.redeemAmt, y.exempt || (x.redeemNo != "" && x.redeemAmt == 0))
  {
  }

  // The record has the parked minutes of the exit that is left.
  lemma ParkedOfClosed(d: Desk, ok: bool)
    requires d.exit.plate != ""
    ensures var next := TicketOk(d, ok);
            && next.exit.parked == (if d.exit.noEntry == 0 && d.exit.parked <= 0 then
                                      d.exit.exitTime / 60 - d.exit.entryTime / 60 else d.exit.parked)
            && next.stored != [] && next.stored[|next.stored| - 1].parked == next.exit.parked
  {
  }

  // Without a plate nothing is closed.
  lemma NothingClosed(d: Desk, x: Exit, ok: bool)
    requires x.plate == ""
    ensures var next := TicketOk(d.(exit := ShowFee(x)), ok);
            && Waiting(d, next, 0)
            && next.exit.redeemNo == x.redeemNo && next.exit.redeemAmt == x.redeemAmt && next.exit.redeemTime == x.redeemTime
            && next.exit.plate == ""
  {
  }

  /** Before a plate is known a redemption ticket is kept and nothing is stored: what is to pay is left as it is before a card is
      known either, and otherwise becomes what is left. */
  lemma AsideOutcome(feeOf: FeeTable, d: Desk, ticket: Ticket, now: int, ok: bool)
    requires d.exit.plate == "" && d.exit.redeemAmt == 0 && (ticket.RedeemTime? || ticket.RedeemAmount?)
    ensures var next, worth := TicketScan(feeOf, d, ticket, now, ok), WorthNow(feeOf, d.exit, ticket, now);
            && next.exit.redeemNo == ticket.number && next.exit.redeemAmt == worth && next.exit.plate == ""
            && (ticket.RedeemTime? && ticket.minutes > 0 ==> next.exit.redeemTime == ticket.minutes)
            && Waiting(d, next, if d.exit.card == "" then d.exit.paid
                                else if Left(d.exit, worth) < 0 then 0 else Left(d.exit, worth))
  {
    RedeemWorth(feeOf, d.exit, ticket, now);
    var x := Redeem(feeOf, d.exit, ticket, now);
    assert ticket.RedeemTime? && ticket.minutes > 0 ==> x.redeemTime == ticket.minutes;
    assert TicketScan(feeOf, d, ticket, now, ok) == ScanRedemption(feeOf, d, ticket, now, ok) by {
      hide ScanRedemption, Redeem, WorthNow;
    }
    hide Redeem, TicketWorth, TicketScan;
    if x.card != "" && Due(x) <= 0 { NothingClosed(d, x, ok); }
    hide TicketOk;
  }

  /** A ticket scanned once an amount is redeemed closes an exit with a fee and nothing left to pay, and otherwise shows what is
      left. */
  lemma SecondScanOutcome(feeOf: FeeTable, d: Desk, ticket: Ticket, now: int, ok: bool)
    requires d.exit.plate != "" && d.exit.redeemAmt > 0
    ensures var next, left := TicketScan(feeOf, d, ticket, now, ok), Left(d.exit, d.exit.redeemAmt);
            if d.exit.fee >= 1 && left <= 0 then Closes(d, next, d.exit, 0, d.exit.redeemAmt, d.exit.exempt)
            else Waiting(d, next, if left < 0 then 0 else left)
  {
    TicketOkCloses(d, ok);
    hide TicketOk;
  }

  /** A complimentary ticket waits for a plate if it needs a card; otherwise it closes the exit free of payment. */
  lemma ComplimentaryOutcome(feeOf: FeeTable, d: Desk, number: string, needsCard: bool, now: int, ok: bool)
    requires d.exit.redeemAmt == 0 && number != ""
    ensures var next := TicketScan(feeOf, d, Complimentary(number, needsCard), now, ok);
            if needsCard && d.exit.plate == "" then next == d.(exit := d.exit.(redeemNo := number))
            else Closes(d, next, d.exit.(plate := if d.exit.plate == "" then "N/A" else d.exit.plate), 0, 0, true)
                 && (next.exit.redeemAmt == 0 ==> next.last.card == number)
  {
    var x := d.exit.(redeemNo := number, plate := if d.exit.plate == "" then "N/A" else d.exit.plate);
    TicketOkCloses(d.(exit := x), ok);
    hide TicketOk;
  }

  /** A refused ticket shows what is to pay. */
  lemma RefusedTicketOutcome(feeOf: FeeTable, d: Desk, now: int, ok: bool)
    requires d.exit.redeemAmt <= 0
    ensures var left := Left(d.exit, d.exit.redeemAmt);
            TicketScan(feeOf, d, Refused, now, ok) == d.(exit := d.exit.(paid := if left < 0 then 0 else left))
  {
  }

  // ---------- Numbers ----------

  // A season that counts at the exit.
  predicate HasSeason(season: Season) {
    season.code == 1 || season.code == 2 || season.code == 9 || season.code == 12
  }

  /** The fee of a stay: by the rate type of a season that has one, or else by the vehicle type, only up to the start of a season
      entered before it, and only from the end of one that expired since. */
  lemma StayFeeOutcome(feeOf: FeeTable, x: Exit, season: Season, now: int)
    ensures var fee := StayFee(feeOf, x, season, now);
            && (!HasSeason(season) || season.code == 9 || season.code == 12 ==> fee == feeOf(x.vehicle, x.entryTime, now))
            && (season.code == 1 && season.rateType != 0 ==> fee == feeOf(season.rateType, x.entryTime, now))
            && (season.code == 1 && season.rateType == 0 ==>
                  fee == feeOf(x.vehicle, x.entryTime, if x.entryTime < season.start then season.start else now))
            && (season.code == 2 ==>
                  fee == feeOf(x.vehicle, if x.entryTime < season.end then season.end else x.entryTime, now))
  {
  }

  // The record of a number whose entry is known: charged from the entry to now.
  function ChargedAt(feeOf: FeeTable, x: Exit, number: string, lookup: Lookup, now: int): Exit {
    var (time, owe) := if x.noEntry == -1 && lookup.entry.Some? then lookup.entry.value else (x.entryTime, x.owe);
    var y := x.(plate := number, entryTime := time, owe := owe, noEntry := 0, vehicle := lookup.vehicle, exempt := false);
    y.(exitTime := now, parked := now / 60 - time / 60, fee := StayFee(feeOf, y, lookup.season, now))
  }

  predicate EntryKnown(x: Exit, lookup: Lookup) {
    x.noEntry == 0 || (x.noEntry == -1 && (lookup.entry.Some? || x.entryTime != UNKNOWN))
  }

  // What is redeemed of a charged record: what was before, or else a waiting ticket's minutes.
  function RedeemedOf(feeOf: FeeTable, x: Exit, now: int): int {
    if x.redeemAmt > 0 || x.redeemTime <= 0 then x.redeemAmt
    else RedeemedAmount(feeOf, x, ExitTimeOr(x, now), ParkedMinutes(x, ExitTimeOr(x, now)))
  }

  // A ticket without any redeemed amount closes it free; then nothing left to pay closes it; otherwise it waits.
  predicate SettledAs(d: Desk, next: Desk, x: Exit, worth: int) {
    if x.redeemNo != "" && worth == 0 then Closes(d, next, x, 0, 0, true)
    else if Left(x, worth) <= 0 then Closes(d, next, x, 0, worth, x.exempt)
    else Waiting(d, next, Left(x, worth)) && next.exit.fee == x.fee && next.exit.owe == x.owe && next.exit.plate == x.plate
         && next.exit.redeemAmt == worth && next.exit.exempt == x.exempt
  }

  // Settling redeems what is to be redeemed; it may count the parked minutes, as closing would.
  lemma SettledRecord(feeOf: FeeTable, x: Exit, now: int)
    requires x.exitTime == now
    ensures var y := SettleFee(feeOf, x, now);
            && y == x.(redeemAmt := RedeemedOf(feeOf, x, now), paid := y.paid, parked := y.parked)
            && y.paid == (if Left(x, y.redeemAmt) < 0 then 0 else Left(x, y.redeemAmt))
            && (y.parked == x.parked || (x.noEntry == 0 && x.parked == 0 && y.parked == now / 60 - x.entryTime / 60))
  {
  }

  lemma CloseOrWaitOutcome(feeOf: FeeTable, d: Desk, now: int, ok: bool)
    requires d.exit.plate != "" && d.exit.exitTime == now
    ensures SettledAs(d, CloseOrWait(d.(exit := SettleFee(feeOf, d.exit, now)), ok), d.exit, RedeemedOf(feeOf, d.exit, now))
  {
    var x := SettleFee(feeOf, d.exit, now);
    SettledRecord(feeOf, d.exit, now);
    hide SettleFee, RedeemedOf;
    if FreeTicket(x) {
      SaveCloses(d.(exit := MakeComplimentary(x)), ok);
      hide SaveExit;
    } else if x.paid <= 0 {
      SaveCloses(d.(exit := x), ok);
      hide SaveExit;
    }
  }

  /** A new number whose entry is known, with no season that pays the stay: the stay is charged, and the exit closed, free by a
      ticket or with nothing left to pay, or left waiting for exactly what is left. */
  lemma EntryOutcome(feeOf: FeeTable, d: Desk, number: string, check: Check, now: int, ok: bool)
    requires NewExit(d, number, check) && number != "" && EntryKnown(d.exit, check.lookup)
    requires !HasSeason(check.lookup.season) || check.lookup.season.code == 2
             || (check.lookup.season.code == 1 && check.lookup.season.rateType != 0 && check.lookup.seasonCharge)
    ensures var x := ChargedAt(feeOf, d.exit, number, check.lookup, now);
            SettledAs(d, CheckNumber(feeOf, d, number, check, now, ok), x, RedeemedOf(feeOf, x, now))
  {
    var x := ChargedAt(feeOf, d.exit, number, check.lookup, now);
    var arrived := Arrive(d.exit, number, check.lookup);
    hide StayFee;
    assert FeeAtExit(feeOf, arrived, check.lookup, now) == Some(x);
    assert CheckNumber(feeOf, d, number, check, now, ok)
        == CloseOrWait(d.(exit := SettleFee(feeOf, x, now)), ok) by { hide CloseOrWait, SettleFee, SaveExit; }
    hide CheckNumber, Arrive, FeeAtExit, CloseOrWait, SettleFee, ChargedAt, SettledAs, RedeemedOf;
    CloseOrWaitOutcome(feeOf, d.(exit := x), now, ok);
    SettledFrom(d, d.(exit := x), CloseOrWait(d.(exit := SettleFee(feeOf, x, now)), ok), x, RedeemedOf(feeOf, x, now));
  }

  // What was on the desk before does not matter.
  lemma SettledFrom(d: Desk, charged: Desk, next: Desk, x: Exit, worth: int)
    requires charged == d.(exit := charged.exit) && SettledAs(charged, next, x, worth)
    ensures SettledAs(d, next, x, worth)
  {
  }

  /** A season that is not charged, or that has no entry to charge, closes the exit with no fee. */
  lemma FreeSeasonOutcome(feeOf: FeeTable, d: Desk, number: string, check: Check, now: int, ok: bool)
    requires NewExit(d, number, check) && number != "" && -1 <= d.exit.noEntry <= 1
    requires var season := check.lookup.season; season.code == 1 || season.code == 9 || season.code == 12
    requires !check.lookup.seasonCharge || !EntryKnown(d.exit, check.lookup)
    ensures var x := if EntryKnown(d.exit, check.lookup) then
                       ChargedAt(feeOf, d.exit, number, check.lookup, now).(parked := d.exit.parked)
                     else d.exit.(plate := number, noEntry := 1, exitTime := now,
                                  parked := if d.exit.noEntry == 1 then d.exit.parked else -1);
            Closes(d, CheckNumber(feeOf, d, number, check, now, ok), x.(fee := 0), 0, x.redeemAmt, true)
  {
    var x := SeasonClosed(Arrive(d.exit, number, check.lookup), now);
    SaveCloses(d.(exit := x), ok);
    assert CheckNumber(feeOf, d, number, check, now, ok) == SaveExit(d.(exit := x), ok) by { hide SaveExit; }
    hide CheckNumber, SaveExit;
  }

  /** A season of all hours that is charged keeps the fee on record, and nothing is to pay. */
  lemma WholeSeasonOutcome(feeOf: FeeTable, d: Desk, number: string, check: Check, now: int, ok: bool)
    requires NewExit(d, number, check) && number != "" && EntryKnown(d.exit, check.lookup) && check.lookup.seasonCharge
    requires var season, x := check.lookup.season, ChargedAt(feeOf, d.exit, number, check.lookup, now);
             season.code == 9 || season.code == 12
             || (season.code == 1 && season.rateType == 0 && season.start <= x.entryTime)
    ensures var x := ChargedAt(feeOf, d.exit, number, check.lookup, now);
            Closes(d, CheckNumber(feeOf, d, number, check, now, ok), x, 0, x.redeemAmt, true)
  {
    var x := ChargedAt(feeOf, d.exit, number, check.lookup, now);
    hide StayFee;
    assert FeeAtExit(feeOf, Arrive(d.exit, number, check.lookup), check.lookup, now) == Some(x);
    SaveCloses(d.(exit := x.(paid := 0, exempt := true)), ok);
    assert CheckNumber(feeOf, d, number, check, now, ok) == SaveExit(d.(exit := x.(paid := 0, exempt := true)), ok) by {
      hide SaveExit;
    }
    hide CheckNumber, SaveExit, Arrive, FeeAtExit, ChargedAt;
  }

  /** Without an entry, a ticket that has redeemed nothing closes the exit free, and no automatic charge leaves it to the
      intercom; an automatic charge is settled like a fee. */
  lemma NoEntryOutcome(feeOf: FeeTable, d: Desk, number: string, check: Check, now: int, ok: bool)
    requires NewExit(d, number, check) && number != "" && !HasSeason(check.lookup.season)
    requires d.exit.noEntry == 1 || (d.exit.noEntry == -1 && check.lookup.entry.None? && d.exit.entryTime == UNKNOWN)
    ensures var next := CheckNumber(feeOf, d, number, check, now, ok);
            var x := d.exit.(plate := number, noEntry := 1, parked := if d.exit.noEntry == 1 then d.exit.parked else -1,
                             vehicle := check.lookup.vehicle, exempt := false);
            if FreeTicket(x) then Closes(d, next, x, 0, 0, true)
            else match check.lookup.autoCharge
              case None => next == d.(exit := x)
              case Some(amount) =>
                var y := x.(fee := amount, exitTime := now);
                SettledAs(d, next, y, RedeemedOf(feeOf, y, now))
  {
    var x := d.exit.(plate := number, noEntry := 1, parked := if d.exit.noEntry == 1 then d.exit.parked else -1,
                     vehicle := check.lookup.vehicle, exempt := false);
    assert Arrive(d.exit, number, check.lookup) == x;
    hide Arrive, StayFee;
    if FreeTicket(x) {
      SaveCloses(d.(exit := MakeComplimentary(x)), ok);
      assert CheckNumber(feeOf, d, number, check, now, ok) == SaveExit(d.(exit := MakeComplimentary(x)), ok) by {
        hide SaveExit;
      }
      hide CheckNumber, SaveExit;
    } else if check.lookup.autoCharge.Some? {
      var y := x.(fee := check.lookup.autoCharge.value, exitTime := now);
      assert CheckNumber(feeOf, d, number, check, now, ok) == CloseOrWait(d.(exit := SettleFee(feeOf, y, now)), ok) by {
        hide CloseOrWait, SettleFee, SaveExit;
      }
      hide CheckNumber, CloseOrWait, SettleFee, SettledAs, RedeemedOf;
      CloseOrWaitOutcome(feeOf, d.(exit := y), now, ok);
      SettledFrom(d, d.(exit := y), CloseOrWait(d.(exit := SettleFee(feeOf, y, now)), ok), y, RedeemedOf(feeOf, y, now));
    }
  }

  /** The numbers handled as a new exit: while no payment is waited for or to be repeated, any other than that of the exit at the
      desk and, if it came just now, that of the last exit once something was paid or is to pay; and none that is rejected. */
  lemma NewExits(d: Desk, number: string, check: Check)
    ensures NewExit(d, number, check) <==>
              && d.exit.status != WaitingCard && d.exit.status != InsufficientBalance
              && number != d.exit.plate && !check.lookup.rejected
              && (number == d.last.plate && check.recent ==> !d.last.paid && d.exit.paid <= 0)
  {
  }

  /** While a payment is waited for, or a refused one is to be repeated with another card, a number only has the payment asked for
      again; or, if the special cards hold the empty number, which is the one asked for, the exit is closed free of payment. */
  lemma WaitingOutcome(feeOf: FeeTable, d: Desk, number: string, check: Check, now: int, ok: bool)
    requires d.exit.status == WaitingCard || (d.exit.status == InsufficientBalance && number != d.last.card)
    ensures var next := CheckNumber(feeOf, d, number, check, now, ok);
            && ("" !in check.specialCards ==> next == d.(exit := d.exit.(status := WaitingCard)))
            && ("" in check.specialCards && d.exit.plate != "" ==>
                  Closes(d, next, d.exit, 0, d.exit.redeemAmt, true) && next.exit.status == WaitingCard && next.exit.card == "")
  {
    if d.exit.plate != "" { SaveCloses(d.(exit := SpecialCard(d.exit)), ok); }
    hide SaveExit;
  }

  /** A number changes nothing when it is the card that was refused, the exit closed just now and paid, or the exit at the desk; a
      rejected one is only noted. */
  lemma IgnoredNumber(feeOf: FeeTable, d: Desk, number: string, check: Check, now: int, ok: bool)
    requires d.exit.status != WaitingCard
    ensures var next := CheckNumber(feeOf, d, number, check, now, ok);
            && (d.exit.status == InsufficientBalance && number == d.last.card ==> next == d)
            && (d.exit.status != InsufficientBalance ==>
                  && (number == d.last.plate && check.recent && (d.last.paid || d.exit.paid > 0) ==> next == d)
                  && (number == d.exit.plate ==> next == d)
                  && (NewExit(d, number, check.(lookup := check.lookup.(rejected := false))) && check.lookup.rejected ==>
                        next == d.(exit := d.exit.(plate := number))))
  {
    hide ChargeExit, SaveExit;
  }

  // ---------- The central system and the reader ----------

  /** An entry time recharges the exit from it: with an amount left a card is waited for; with none a known plate is closed. */
  lemma ReceivedOutcome(feeOf: FeeTable, d: Desk, entryTime: int, now: int, ok: bool)
    requires d.exit.plate != ""
    ensures var next := ReceiveEntry(feeOf, d, entryTime, now, ok);
            var x := d.exit.(entryTime := entryTime, noEntry := 0, exitTime := now, fee := feeOf(d.exit.vehicle, entryTime, now));
            var worth := RedeemedOf(feeOf, x, now);
            if Left(x, worth) <= 0 then Closes(d, next, x, 0, worth, x.exempt)
            else Waiting(d, next, Left(x, worth)) && next.exit.status == WaitingCard && next.exit.fee == x.fee
  {
    var x := Recharge(feeOf, d.exit, entryTime, now);
    var y := SettleFee(feeOf, x, now);
    SettledRecord(feeOf, x, now);
    hide RedeemedOf;
    SaveCloses(d.(exit := y), ok);
    hide SettleFee, SaveExit;
  }

  /** A payment closes a known exit with the amount that was to pay; the payment is kept as that of the last exit. */
  lemma PaidOutcome(d: Desk, card: string, ok: bool)
    ensures var next := DebitOk(d, card, ok);
            && (d.exit.plate == "" ==> next.stored == d.stored && next.saved == d.saved)
            && (d.exit.plate != "" ==> Closes(d, next, d.exit, d.exit.paid, d.exit.redeemAmt, d.exit.exempt))
            && next.exit.status == Deducted && next.exit.card == card && next.exit.plate == d.exit.plate
            && next.last == Last(d.exit.plate, true, card)
  {
    var paid := d.(exit := d.exit.(card := card, status := Deducted), last := Last(d.exit.plate, true, card));
    if d.exit.plate != "" { SaveCloses(paid, ok); }
  }

  /** After a refused payment the same card is turned away, and another number has a payment waited for again. */
  lemma AfterRefusal(feeOf: FeeTable, d: Desk, number: string, check: Check, now: int, ok: bool)
    requires "" !in check.specialCards
    ensures var refused := Step(feeOf, d, PayRefused);
            && Waiting(d, refused, d.exit.paid)
            && CheckNumber(feeOf, refused, number, check, now, ok)
               == if number == d.last.card then refused else d.(exit := d.exit.(status := WaitingCard))
  {
    hide PBSExit, SaveExit;
  }

  /** A plate is handled unless it is empty or the reader's sign for none, another one is known, or the exit is stored; a card
      always, once it is noted. */
  lemma NumberRead(feeOf: FeeTable, d: Desk, number: string, check: Check, now: int, ok: bool)
    ensures Step(feeOf, d, PlateRead(number, check, now, ok))
         == if number == "" || number == "0000000000" || d.exit.plate != "" || d.saved then d
            else CheckNumber(feeOf, d, number, check, now, ok)
    ensures Step(feeOf, d, CardRead(number, check, now, ok))
         == CheckNumber(feeOf, d.(exit := d.exit.(card := number)), number, check, now, ok)
  {
    hide CheckNumber;
  }

  /** Clearing forgets the exit, but neither the records nor the last exit. */
  lemma ClearedOutcome(feeOf: FeeTable, d: Desk)
    ensures var next := Step(feeOf, d, Cleared);
            && next.stored == d.stored && next.last == d.last && !next.saved
            && next.exit.plate == next.exit.card == next.exit.redeemNo == "" && !next.exit.exempt && next.exit.status == Idle
            && next.exit.entryTime == next.exit.exitTime == UNKNOWN && next.exit.noEntry == -1
            && next.exit.fee == next.exit.paid == next.exit.owe == next.exit.rebate == 0
            && next.exit.redeemAmt == next.exit.redeemTime == next.exit.parked == 0
  {
  }

  // ---------- Redeemed minutes ----------

  /** Minutes are worth, with an entry, the whole fee once they reach the parked minutes; otherwise the fee of themselves, from
      which the fee of the rest is taken, down to nothing, where it is the whole fee already. Without an entry they are worth the
      fee of the last minutes before the exit. */
  lemma MinutesWorth(feeOf: FeeTable, x: Exit, now: int)
    requires x.redeemTime > 0 && x.redeemAmt <= 0
    ensures var exitTime := if x.exitTime == UNKNOWN then now else x.exitTime;
            var parked := if x.noEntry == 0 && x.parked == 0 then exitTime / 60 - x.entryTime / 60 else x.parked;
            var worth := RedeemTime2Amt(feeOf, x, now).redeemAmt;
            var until := x.entryTime + 60 * x.redeemTime;
            var own, rest := feeOf(x.vehicle, x.entryTime, until), feeOf(x.vehicle, until, exitTime);
            && (x.noEntry != 0 ==> worth == feeOf(x.vehicle, exitTime - 60 * x.redeemTime, exitTime))
            && (x.noEntry == 0 && parked <= x.redeemTime ==> worth == x.fee)
            && (x.noEntry == 0 && x.redeemTime < parked && (own != x.fee || rest <= 0) ==> worth == own)
            && (x.noEntry == 0 && x.redeemTime < parked && own == x.fee && 0 < rest ==>
                  worth == if rest <= own then own - rest else 0)
            && RedeemTime2Amt(feeOf, x, now) == x.(redeemAmt := worth, parked := parked)
  {
  }
}
