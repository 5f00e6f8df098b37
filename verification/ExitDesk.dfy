/**
 The exit desk as the source runs it: one shared exit record whose fields every event handler updates, the fields kept of
 the last exit, and the records stored. Each handler is proved against the event functions of Settlement.
 */
module ExitDesk {
  import opened Common
  import opened S = Settlement

  class ExitDesk {
    const feeOf: FeeTable

    var plate: string
    var card: string
    var entryTime: int
    var exitTime: int
    var noEntry: int
    var parked: int
    var vehicle: int
    var fee: int
    var paid: int
    var owe: int
    var rebate: int
    var redeemAmt: int
    var redeemTime: int
    var redeemNo: string
    var exempt: bool
    var status: Status

    var lastPlate: string
    var lastPaid: bool
    var lastCard: string
    var saved: bool
    var stored: seq<Record>

    function Fields(): Exit
      reads this`plate, this`card, this`entryTime, this`exitTime, this`noEntry, this`parked, this`vehicle, this`fee,
            this`paid, this`owe, this`rebate, this`redeemAmt, this`redeemTime, this`redeemNo, this`exempt, this`status
    {
      Exit(plate, card, entryTime, exitTime, noEntry, parked, vehicle, fee, paid, owe, rebate,
           redeemAmt, redeemTime, redeemNo, exempt, status)
    }

    function Previous(): Last
      reads this`lastPlate, this`lastPaid, this`lastCard
    {
      Last(lastPlate, lastPaid, lastCard)
    }

    function View(): Desk
      reads this
    {
      Desk(Fields(), stored, Previous(), saved)
    }

    constructor (feeOf: FeeTable)
      ensures this.feeOf == feeOf && View() == Desk(CLEAR_EXIT, [], Last("", false, ""), false)
    {
      this.feeOf, stored := feeOf, [];
      lastPlate, lastPaid, lastCard := "", false, "";
      new;
      Clearme();
    }

    method ClearMoney()
      modifies this`fee, this`paid, this`owe, this`rebate, this`redeemAmt, this`redeemTime, this`exempt
      ensures fee == paid == owe == rebate == redeemAmt == redeemTime == 0 && !exempt
    {
      fee, paid, owe, rebate := 0, 0, 0, 0;
      redeemAmt, redeemTime, exempt := 0, 0, false;
    }

    method ClearNumbers()
      modifies this`plate, this`card, this`redeemNo, this`parked, this`vehicle, this`status
      ensures plate == card == redeemNo == "" && parked == vehicle == 0 && status == Idle
    {
      plate, card, redeemNo := "", "", "";
      parked, vehicle, status := 0, 0, Idle;
    }

    method Clearme()
      modifies this
      ensures View() == S.Clear(old(View()))
    {
      ClearMoney();
      ClearNumbers();
      entryTime, exitTime, noEntry := UNKNOWN, UNKNOWN, -1;
      saved := false;
    }

    method ShowFee2User()
      modifies this`paid
      ensures Fields() == S.ShowFee(old(Fields()))
    {
      var due := fee - redeemAmt - rebate + owe;
      if due < 0 { due := 0; }
      paid := due;
    }

    // Stores the record and remembers the exit as the last one.
    method StoreRecord(ok: bool)
      modifies this`stored, this`saved, this`lastPlate, this`lastPaid, this`lastCard
      ensures stored == old(stored) + [S.RecordOf(Fields())] && saved
      ensures Previous() == S.LastAfter(old(Previous()), Fields(), ok)
    {
      hide S.RecordOf;
      ghost var x := Fields();
      stored, saved := stored + [S.RecordOf(Fields())], true;
      if ok { lastPlate := plate; }
      if paid == 0 { lastCard, lastPaid := card, true; }
      assert Fields() == x;
    }

    method AdjustRecord()
      modifies this`redeemAmt, this`parked
      ensures Fields() == S.Adjust(old(Fields()))
    {
      if redeemAmt > fee - rebate + owe { redeemAmt := fee - rebate + owe; }
      if noEntry == 0 && parked <= 0 { parked := MinutesBetween(entryTime, exitTime); }
    }

    method SaveExit(ok: bool)
      modifies this`redeemAmt, this`parked, this`stored, this`lastPlate, this`lastPaid, this`lastCard, this`saved
      ensures View() == S.SaveExit(old(View()), ok)
    {
      hide S.Adjust, S.LastAfter, S.RecordOf;
      if plate == "" { return; }
      AdjustRecord();
      StoreRecord(ok);
    }

    method RedeemTime2Amt(now: int)
      modifies this`redeemAmt, this`parked
      ensures Fields() == S.RedeemTime2Amt(feeOf, old(Fields()), now)
    {
      if redeemAmt > 0 { return; }
      if redeemTime > 0 {
        var until := if exitTime == UNKNOWN then now else exitTime;
        if noEntry != 0 {
          redeemAmt := feeOf(vehicle, until - redeemTime * 60, until);
        } else {
          if parked == 0 { parked := MinutesBetween(entryTime, until); }
          if redeemTime >= parked {
            redeemAmt := fee;
          } else {
            var worth := entryTime + redeemTime * 60;
            redeemAmt := feeOf(vehicle, entryTime, worth);
            if fee - redeemAmt == 0 {
              var addFee := feeOf(vehicle, worth, until);
              if addFee > 0 {
                redeemAmt := redeemAmt - addFee;
                if redeemAmt < 0 { redeemAmt := 0; }
              }
            }
          }
        }
      }
    }

    // Closes the exit as exempt, with the card number it is closed by.
    method CloseExempt(number: string, ok: bool)
      modifies this`exempt, this`paid, this`card, this`redeemAmt, this`parked, this`stored,
               this`lastPlate, this`lastPaid, this`lastCard, this`saved
      ensures View() == S.SaveExit(old(View()).(exit := old(Fields()).(exempt := true, paid := 0, card := number)), ok)
    {
      hide S.SaveExit;
      ghost var x := Fields();
      exempt, paid, card := true, 0, number;
      assert Fields() == x.(exempt := true, paid := 0, card := number);
      SaveExit(ok);
    }

    method TicketOk(ok: bool)
      modifies this`exempt, this`paid, this`card, this`redeemAmt, this`parked, this`stored,
               this`lastPlate, this`lastPaid, this`lastCard, this`saved
      ensures View() == S.TicketOk(old(View()), ok)
    {
      hide S.SaveExit;
      if redeemAmt == 0 && redeemNo != "" {
        CloseExempt(redeemNo, ok);
      } else {
        paid := 0;
        SaveExit(ok);
      }
    }

    // A waiting redemption time is turned into money; then the amount to pay is known.
    method SettleFee(now: int)
      modifies this`redeemAmt, this`parked, this`paid
      ensures Fields() == S.SettleFee(feeOf, old(Fields()), now)
    {
      hide S.RedeemTime2Amt;
      if redeemTime > 0 { RedeemTime2Amt(now); }
      ShowFee2User();
    }

    method CloseOrWait(ok: bool)
      modifies this`exempt, this`paid, this`card, this`redeemAmt, this`parked, this`stored,
               this`lastPlate, this`lastPaid, this`lastCard, this`saved
      ensures View() == S.CloseOrWait(old(View()), ok)
    {
      hide S.SaveExit;
      if redeemNo != "" && redeemAmt == 0 {
        CloseExempt(redeemNo, ok);
      } else if paid <= 0 {
        SaveExit(ok);
      }
    }

    method LookUpEntry(entry: Option<(int, int)>)
      modifies this`entryTime, this`owe, this`noEntry, this`parked
      ensures Fields() == S.LookUpEntry(old(Fields()), entry)
    {
      if noEntry == -1 {
        if entry.Some? {
          entryTime, owe := entry.value.0, entry.value.1;
          noEntry := 0;
        } else if entryTime == UNKNOWN {
          noEntry, parked := 1, -1;
        } else {
          noEntry := 0;
        }
      }
    }

    method StayFee(season: Season, now: int) returns (amount: int)
      ensures amount == S.StayFee(feeOf, Fields(), season, now)
    {
      if season.code == 1 {
        if season.rateType != 0 {
          amount := feeOf(season.rateType, entryTime, now);
        } else if entryTime < season.start {
          amount := feeOf(vehicle, entryTime, season.start);
        } else {
          amount := feeOf(vehicle, entryTime, now);
        }
      } else if season.code == 2 && season.end > entryTime {
        amount := feeOf(vehicle, season.end, now);
      } else {
        amount := feeOf(vehicle, entryTime, now);
      }
    }

    method FeeAtExit(lookup: Lookup, now: int) returns (charged: bool)
      modifies this`fee, this`exitTime, this`parked
      ensures charged == S.FeeAtExit(feeOf, old(Fields()), lookup, now).Some?
      ensures Fields() == if charged then S.FeeAtExit(feeOf, old(Fields()), lookup, now).value else old(Fields())
    {
      hide S.StayFee;
      if noEntry == 1 {
        if lookup.autoCharge.None? { return false; }
        fee, exitTime := lookup.autoCharge.value, now;
      } else {
        var amount := StayFee(lookup.season, now);
        exitTime := now;
        parked := MinutesBetween(entryTime, exitTime);
        fee := amount;
      }
      charged := true;
    }

    method Arrive(newPlate: string, lookup: Lookup)
      modifies this`plate, this`entryTime, this`owe, this`noEntry, this`parked, this`vehicle, this`exempt
      ensures Fields() == S.Arrive(old(Fields()), newPlate, lookup)
    {
      hide S.LookUpEntry;
      plate := newPlate;
      LookUpEntry(lookup.entry);
      vehicle, exempt := lookup.vehicle, false;
    }

    method CloseSeasonFree(now: int, ok: bool)
      modifies this
      ensures View() == S.SaveExit(old(View()).(exit := S.SeasonClosed(old(Fields()), now)), ok)
    {
      hide S.SaveExit;
      ghost var x := Fields();
      fee, exitTime := 0, now;
      assert Fields() == x.(fee := 0, exitTime := now);
      CloseExempt(card, ok);
    }

    method ChargeStay(lookup: Lookup, now: int, ok: bool)
      modifies this
      ensures View() == S.ChargeStay(feeOf, old(View()), lookup, now, ok)
    {
      hide S.FeeAtExit, S.SettleFee, S.SaveExit, S.CloseOrWait;
      var charged := FeeAtExit(lookup, now);
      if !charged { return; }
      var early := lookup.season.code == 1 && lookup.season.rateType == 0 && entryTime < lookup.season.start;
      if noEntry != 1 && ((lookup.season.code == 1 && lookup.season.rateType == 0 && !early)
                          || lookup.season.code == 9 || lookup.season.code == 12) {
        CloseExempt(card, ok);
      } else {
        SettleFee(now);
        CloseOrWait(ok);
      }
    }

    method ChargeExit(lookup: Lookup, now: int, ok: bool)
      modifies this
      ensures View() == S.ChargeExit(feeOf, old(View()), lookup, now, ok)
    {
      hide S.ChargeStay, S.SaveExit;
      if (lookup.season.code == 1 || lookup.season.code == 12 || lookup.season.code == 9)
         && (!lookup.seasonCharge || noEntry == 1) {
        CloseSeasonFree(now, ok);
      } else if noEntry == 1 && redeemNo != "" && redeemAmt == 0 {
        CloseExempt(redeemNo, ok);
      } else {
        ChargeStay(lookup, now, ok);
      }
    }

    /** A new number at the exit. */
    method PBSExit(newPlate: string, lookup: Lookup, now: int, ok: bool)
      modifies this
      ensures View() == S.PBSExit(feeOf, old(View()), newPlate, lookup, now, ok)
    {
      hide S.Arrive, S.ChargeExit;
      if newPlate == plate { return; }
      if lookup.rejected {
        plate := newPlate;
        return;
      }
      Arrive(newPlate, lookup);
      ChargeExit(lookup, now, ok);
    }

    // A card that lets its holder out free.
    method AcceptSpecialCard(ok: bool)
      modifies this
      ensures View() == S.SaveExit(old(View()).(exit := S.SpecialCard(old(Fields()))), ok)
    {
      hide S.SaveExit;
      ghost var x := Fields();
      status := WaitingCard;
      assert Fields() == x.(status := WaitingCard);
      CloseExempt("", ok);
    }

    /** A number handled by the payment status. */
    method CheckIUorCardStatus(number: string, check: Check, now: int, ok: bool)
      modifies this
      ensures View() == S.CheckNumber(feeOf, old(View()), number, check, now, ok)
    {
      hide S.PBSExit, S.SaveExit;
      if status == InsufficientBalance && lastCard == number { return; }
      if status == WaitingCard || status == InsufficientBalance {
        if CheckCardOK(check) {
          AcceptSpecialCard(ok);
        } else {
          status := WaitingCard;
        }
      } else if number == lastPlate && check.recent {
        if lastPaid || paid > 0 { return; }
        PBSExit(number, check.lookup, now, ok);
      } else {
        PBSExit(number, check.lookup, now, ok);
      }
    }

    /** A plate is read by the camera. */
    method ReceivedLPR(newPlate: string, check: Check, now: int, ok: bool)
      modifies this
      ensures View() == S.ReadPlate(feeOf, old(View()), newPlate, check, now, ok)
    {
      hide S.CheckNumber;
      if newPlate == NO_PLATE { return; }
      if saved || plate != "" || newPlate == "" { return; }
      CheckIUorCardStatus(newPlate, check, now, ok);
    }

    /** A card number is read by the payment reader. */
    method ReceivedCard(number: string, check: Check, now: int, ok: bool)
      modifies this
      ensures View() == S.ReadCard(feeOf, old(View()), number, check, now, ok)
    {
      hide S.CheckNumber;
      ghost var d := View();
      card := number;
      assert View() == d.(exit := d.exit.(card := number));
      CheckIUorCardStatus(number, check, now, ok);
    }

    method RedeemTicket(ticket: Ticket, now: int)
      requires ticket.RedeemTime? || ticket.RedeemAmount?
      modifies this`redeemNo, this`redeemTime, this`redeemAmt, this`parked
      ensures Fields() == S.Redeem(feeOf, old(Fields()), ticket, now)
    {
      hide S.RedeemTime2Amt;
      redeemNo := ticket.number;
      if ticket.RedeemTime? && ticket.minutes > 0 {
        redeemTime := ticket.minutes;
        if paid > 0 { RedeemTime2Amt(now); }
      } else {
        redeemAmt := if ticket.RedeemAmount? then ticket.amount else 0;
      }
    }

    method ScanComplimentary(number: string, needsCard: bool, ok: bool)
      modifies this
      ensures View() == S.ScanComplimentary(old(View()), number, needsCard, ok)
    {
      hide S.TicketOk;
      redeemNo := number;
      if plate == "" {
        if needsCard { return; }
        plate := "N/A";
      }
      TicketOk(ok);
    }

    method ScanRedemption(ticket: Ticket, now: int, ok: bool)
      requires ticket.RedeemTime? || ticket.RedeemAmount?
      modifies this
      ensures View() == S.ScanRedemption(feeOf, old(View()), ticket, now, ok)
    {
      hide S.Redeem, S.TicketOk;
      RedeemTicket(ticket, now);
      if plate == "" && card == "" { return; }
      ShowFee2User();
      if fee - redeemAmt - rebate + owe <= 0 { TicketOk(ok); }
    }

    /** A ticket is scanned. */
    method TicketScan(ticket: Ticket, now: int, ok: bool)
      modifies this
      ensures View() == S.TicketScan(feeOf, old(View()), ticket, now, ok)
    {
      hide S.ScanComplimentary, S.ScanRedemption, S.TicketOk;
      if redeemAmt > 0 {
        if fee >= 1 && fee - redeemAmt - rebate + owe <= 0 {
          TicketOk(ok);
        } else {
          ShowFee2User();
        }
        return;
      }
      match ticket
      case Refused => ShowFee2User();
      case Complimentary(number, needsCard) => ScanComplimentary(number, needsCard, ok);
      case _ => ScanRedemption(ticket, now, ok);
    }

    method Recharge(newEntryTime: int, now: int)
      modifies this`entryTime, this`noEntry, this`exitTime, this`fee
      ensures Fields() == S.Recharge(feeOf, old(Fields()), newEntryTime, now)
    {
      entryTime, noEntry := newEntryTime, 0;
      exitTime := now;
      fee := feeOf(vehicle, entryTime, exitTime);
    }

    /** The central system answers with an entry time. */
    method ReceivedEntryRecord(newEntryTime: int, now: int, ok: bool)
      modifies this
      ensures View() == S.ReceiveEntry(feeOf, old(View()), newEntryTime, now, ok)
    {
      hide S.Recharge, S.SettleFee, S.SaveExit;
      Recharge(newEntryTime, now);
      SettleFee(now);
      if paid > 0 {
        status := WaitingCard;
      } else {
        SaveExit(ok);
      }
    }

    method RememberPayment(number: string)
      modifies this`card, this`status, this`lastPlate, this`lastPaid, this`lastCard
      ensures Fields() == old(Fields()).(card := number, status := Deducted) && Previous() == Last(plate, true, number)
    {
      card, status := number, Deducted;
      lastPlate, lastPaid, lastCard := plate, true, number;
    }

    /** The reader has deducted the amount to pay. */
    method DebitOK(number: string, ok: bool)
      modifies this
      ensures View() == S.DebitOk(old(View()), number, ok)
    {
      hide S.SaveExit;
      RememberPayment(number);
      SaveExit(ok);
    }

    /** The reader has found too little balance. */
    method RefusePayment()
      modifies this`status
      ensures View() == S.Step(feeOf, old(View()), PayRefused)
    {
      hide S.ReadPlate, S.ReadCard, S.TicketScan, S.ReceiveEntry, S.DebitOk;
      status := InsufficientBalance;
    }

    /** One event of the desk, whichever handler takes it. */
    method Handle(e: Event)
      modifies this
      ensures View() == S.Step(feeOf, old(View()), e)
    {
      hide S.ReadPlate, S.ReadCard, S.TicketScan, S.ReceiveEntry, S.DebitOk, S.Clear;
      match e
      case PlateRead(number, check, now, ok) => ReceivedLPR(number, check, now, ok);
      case CardRead(number, check, now, ok) => ReceivedCard(number, check, now, ok);
      case TicketScanned(ticket, now, ok) => TicketScan(ticket, now, ok);
      case EntryReceived(time, now, ok) => ReceivedEntryRecord(time, now, ok);
      case PaySucceeded(number, ok) => DebitOK(number, ok);
      case PayRefused => RefusePayment();
      case Cleared => Clearme();
    }

    /** Any run of events on the shared object: what it has stored conserves money. */
    method HandleAll(events: seq<Event>)
      requires S.Kept(View()) && S.Regular(feeOf, View(), events)
      modifies this
      ensures View() == S.Run(feeOf, old(View()), events) && S.Kept(View())
    {
      hide S.Step, S.Kept, S.Regular;
      ghost var start := View();
      assert events[0..] == events;
      for i := 0 to |events|
        invariant S.Run(feeOf, View(), events[i..]) == S.Run(feeOf, start, events)
      {
        assert events[i..][0] == events[i] && events[i..][1..] == events[i + 1..];
        Handle(events[i]);
      }
      S.RunConserves(feeOf, start, events);
    }
  }
}
