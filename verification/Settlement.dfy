/**
 Exit settlement: the exit record that plate, card, ticket, entry-record and payment events write in any order, and the
 records that are stored when an exit is closed. Money is in hundredths; times are in seconds.
 */
module Settlement {
  import opened Common

  // No entry time, or no exit time yet.
  const UNKNOWN := -1

  // What the reader of a plate shows when it read none.
  const NO_PLATE := "0000000000"

  // How far the payment has come; other states are never set.
  datatype Status = Idle | WaitingCard | Deducted | InsufficientBalance

  /** The money and identity fields of the exit record. noEntry is -1 before the entry is looked up, 0 when an entry is
      known, 1 when there is none; an exempt exit is closed free of payment by a complimentary ticket, a season or a special
      card. */
  datatype Exit = Exit(
    plate: string, card: string, entryTime: int, exitTime: int, noEntry: int, parked: int, vehicle: int,
    fee: int, paid: int, owe: int, rebate: int, redeemAmt: int, redeemTime: int, redeemNo: string,
    exempt: bool, status: Status)

  // What is stored of a closed exit.
  datatype Record = Record(
    plate: string, fee: int, owe: int, paid: int, rebate: int, redeemed: int, parked: int, exempt: bool)

  // The last closed exit: its plate, whether it counts as paid, and the last card.
  datatype Last = Last(plate: string, paid: bool, card: string)

  /** The exit being settled, the records stored, the last closed exit, and whether this one has been stored. */
  datatype Desk = Desk(exit: Exit, stored: seq<Record>, last: Last, saved: bool)

  // The fee by vehicle type between two times.
  type FeeTable = (int, int, int) -> int

  // The season of a number: its state, its rate type, and from when to when it is valid.
  datatype Season = Season(code: int, rateType: int, start: int, end: int)

  // What the databases answer when a number arrives: a rejection, the entry with the amount owed, the automatic charge of
  // an exit without entry, the vehicle type from the loops, the season, and whether the station charges seasons.
  datatype Lookup = Lookup(rejected: bool, entry: Option<(int, int)>, autoCharge: Option<int>, vehicle: int,
                           season: Season, seasonCharge: bool)

  // Besides those, the numbers of the special cards, and whether the last exit was closed only just now.
  datatype Check = Check(specialCards: set<string>, recent: bool, lookup: Lookup)

  // A scanned ticket: refused, a redemption worth time or an amount, or complimentary.
  datatype Ticket = Refused | RedeemTime(number: string, minutes: int) | RedeemAmount(number: string, amount: int)
                  | Complimentary(number: string, needsCard: bool)

  /** The flag ok of an event says whether the record it may store was reported stored. */
  datatype Event =
    | PlateRead(plate: string, check: Check, now: int, ok: bool)
    | CardRead(number: string, check: Check, now: int, ok: bool)
    | TicketScanned(ticket: Ticket, now: int, ok: bool)
    | EntryReceived(entryTime: int, now: int, ok: bool)
    | PaySucceeded(number: string, ok: bool)
    | PayRefused
    | Cleared

  // ---------- Fees ----------

  function Due(x: Exit): int {
    x.fee - x.rebate - x.redeemAmt + x.owe
  }

  function AtLeastZero(amount: int): int {
    if amount < 0 then 0 else amount
  }

  function ShowFee(x: Exit): Exit {
    x.(paid := AtLeastZero(Due(x)))
  }

  function MinutesBetween(start: int, end: int): int {
    end / 60 - start / 60
  }

  /** A redemption ticket's minutes as money: the fee of those minutes from entry, or of the last minutes before exit when
      there is no entry. When the whole fee would be redeemed, the fee of the remaining time is taken off again. */
  function RedeemedAmount(feeOf: FeeTable, x: Exit, exitTime: int, parked: int): int {
    if x.noEntry != 0 then feeOf(x.vehicle, exitTime - x.redeemTime * 60, exitTime)
    else if x.redeemTime >= parked then x.fee
    else
      var until := x.entryTime + x.redeemTime * 60;
      var redeemed := feeOf(x.vehicle, x.entryTime, until);
      if x.fee - redeemed == 0 then
        var rest := feeOf(x.vehicle, until, exitTime);
        if rest > 0 then AtLeastZero(redeemed - rest) else redeemed
      else redeemed
  }

  function ExitTimeOr(x: Exit, now: int): int {
    if x.exitTime == UNKNOWN then now else x.exitTime
  }

  // The stored parked minutes; they are computed only where none are stored.
  function ParkedMinutes(x: Exit, exitTime: int): int {
    if x.noEntry == 0 && x.parked == 0 then MinutesBetween(x.entryTime, exitTime) else x.parked
  }

  function RedeemTime2Amt(feeOf: FeeTable, x: Exit, now: int): Exit {
    if x.redeemAmt > 0 || x.redeemTime <= 0 then x
    else
      var exitTime := ExitTimeOr(x, now);
      var parked := ParkedMinutes(x, exitTime);
      x.(parked := parked, redeemAmt := RedeemedAmount(feeOf, x, exitTime, parked))
  }

  // ---------- Closing ----------

  // What the record to store is adjusted to: no more is redeemed than is left after the rebate.
  function Adjust(x: Exit): Exit {
    var limit := x.fee - x.rebate + x.owe;
    x.(redeemAmt := if x.redeemAmt > limit then limit else x.redeemAmt,
       parked := if x.noEntry == 0 && x.parked <= 0 then MinutesBetween(x.entryTime, x.exitTime) else x.parked)
  }

  function RecordOf(x: Exit): Record {
    Record(x.plate, x.fee, x.owe, x.paid, x.rebate, x.redeemAmt, x.parked, x.exempt)
  }

  function LastAfter(last: Last, x: Exit, ok: bool): Last {
    Last(if ok then x.plate else last.plate, last.paid || x.paid == 0, if x.paid == 0 then x.card else last.card)
  }

  function SaveExit(d: Desk, ok: bool): Desk {
    if d.exit.plate == "" then d
    else
      var x := Adjust(d.exit);
      Desk(x, d.stored + [RecordOf(x)], LastAfter(d.last, x, ok), true)
  }

  function MakeComplimentary(x: Exit): Exit {
    x.(exempt := true, paid := 0, card := x.redeemNo)
  }

  // A ticket without any redeemed amount makes the exit complimentary.
  predicate FreeTicket(x: Exit) {
    x.redeemNo != "" && x.redeemAmt == 0
  }

  function TicketOk(d: Desk, ok: bool): Desk {
    var x := d.exit.(paid := 0);
    SaveExit(d.(exit := if FreeTicket(x) then MakeComplimentary(x) else x), ok)
  }

  // ---------- A number arrives ----------

  // The entry of a new number, looked up once.
  function LookUpEntry(x: Exit, entry: Option<(int, int)>): Exit {
    if x.noEntry != -1 then x
    else match entry
      case Some((time, owe)) => x.(entryTime := time, owe := owe, noEntry := 0)
      case None =>
        if x.entryTime == UNKNOWN then x.(noEntry := 1, parked := -1) else x.(noEntry := 0)
  }

  predicate OpenSeason(code: int) {
    code == 1 || code == 9 || code == 12
  }

  // A season that closes the exit without any fee.
  predicate SeasonFree(x: Exit, lookup: Lookup) {
    OpenSeason(lookup.season.code) && (!lookup.seasonCharge || x.noEntry == 1)
  }

  function SeasonClosed(x: Exit, now: int): Exit {
    x.(fee := 0, paid := 0, exitTime := now, exempt := true)
  }

  predicate EntersEarly(x: Exit, season: Season) {
    season.code == 1 && season.rateType == 0 && x.entryTime < season.start
  }

  /** The fee of a stay: by the season's own rate, only up to its start or only from its end, or by the vehicle type. */
  function StayFee(feeOf: FeeTable, x: Exit, season: Season, now: int): int {
    if season.code == 1 && season.rateType != 0 then feeOf(season.rateType, x.entryTime, now)
    else if EntersEarly(x, season) then feeOf(x.vehicle, x.entryTime, season.start)
    else if season.code == 2 && season.end > x.entryTime then feeOf(x.vehicle, season.end, now)
    else feeOf(x.vehicle, x.entryTime, now)
  }

  // The fee of an exit with an entry, or the automatic charge of one without; nothing if neither applies.
  function FeeAtExit(feeOf: FeeTable, x: Exit, lookup: Lookup, now: int): Option<Exit> {
    if x.noEntry == 1 then
      match lookup.autoCharge
      case Some(amount) => Some(x.(fee := amount, exitTime := now))
      case None => None
    else
      Some(x.(exitTime := now, parked := MinutesBetween(x.entryTime, now), fee := StayFee(feeOf, x, lookup.season, now)))
  }

  // A season that pays the whole stay, its fee being kept on record.
  predicate SeasonWhole(x: Exit, season: Season) {
    && x.noEntry != 1
    && ((season.code == 1 && season.rateType == 0 && !EntersEarly(x, season)) || season.code == 9 || season.code == 12)
  }

  // The amount to pay, once a waiting redemption time is turned into money.
  function SettleFee(feeOf: FeeTable, x: Exit, now: int): Exit {
    ShowFee(if x.redeemTime > 0 then RedeemTime2Amt(feeOf, x, now) else x)
  }

  // A charged exit is closed by a free ticket or when nothing is left to pay; otherwise it waits for the payment.
  function CloseOrWait(d: Desk, ok: bool): Desk {
    if FreeTicket(d.exit) then SaveExit(d.(exit := MakeComplimentary(d.exit)), ok)
    else if d.exit.paid > 0 then d
    else SaveExit(d, ok)
  }

  // A new number: its entry is looked up and its vehicle type read from the loops.
  function Arrive(x: Exit, plate: string, lookup: Lookup): Exit {
    LookUpEntry(x.(plate := plate), lookup.entry).(vehicle := lookup.vehicle, exempt := false)
  }

  function ChargeStay(feeOf: FeeTable, d: Desk, lookup: Lookup, now: int, ok: bool): Desk {
    match FeeAtExit(feeOf, d.exit, lookup, now)
    case None => d
    case Some(x) =>
      if SeasonWhole(x, lookup.season) then SaveExit(d.(exit := x.(paid := 0, exempt := true)), ok)
      else CloseOrWait(d.(exit := SettleFee(feeOf, x, now)), ok)
  }

  function ChargeExit(feeOf: FeeTable, d: Desk, lookup: Lookup, now: int, ok: bool): Desk {
    if SeasonFree(d.exit, lookup) then SaveExit(d.(exit := SeasonClosed(d.exit, now)), ok)
    else if d.exit.noEntry == 1 && FreeTicket(d.exit) then SaveExit(d.(exit := MakeComplimentary(d.exit)), ok)
    else ChargeStay(feeOf, d, lookup, now, ok)
  }

  function PBSExit(feeOf: FeeTable, d: Desk, plate: string, lookup: Lookup, now: int, ok: bool): Desk {
    if plate == d.exit.plate then d
    else if lookup.rejected then d.(exit := d.exit.(plate := plate))
    else ChargeExit(feeOf, d.(exit := Arrive(d.exit, plate, lookup)), lookup, now, ok)
  }

  // ---------- The payment status in front of it ----------

  // After a refused payment the same card is turned away.
  predicate TurnedAway(d: Desk, number: string) {
    d.exit.status.InsufficientBalance? && d.last.card == number
  }

  // A payment is waited for, or a refused one is to be repeated with another card.
  predicate Waits(d: Desk) {
    d.exit.status.WaitingCard? || d.exit.status.InsufficientBalance?
  }

  /** Whether a card is a special one. The number is not passed on by either reader, so the empty one is asked for. */
  predicate CheckCardOK(check: Check, number: string := "") {
    number in check.specialCards
  }

  function SpecialCard(x: Exit): Exit {
    x.(status := WaitingCard, card := "", paid := 0, exempt := true)
  }

  // The number of the last exit, just closed: the barrier opens again if it has paid.
  predicate JustClosed(d: Desk, number: string, recent: bool) {
    number == d.last.plate && recent && (d.last.paid || d.exit.paid > 0)
  }

  /** A number is handled by the payment status: while a payment is waited for it can only be a card to pay with, and only
      otherwise a new exit. */
  function CheckNumber(feeOf: FeeTable, d: Desk, number: string, check: Check, now: int, ok: bool): Desk {
    if TurnedAway(d, number) then d
    else if Waits(d) then
      if CheckCardOK(check) then SaveExit(d.(exit := SpecialCard(d.exit)), ok)
      else d.(exit := d.exit.(status := WaitingCard))
    else if JustClosed(d, number, check.recent) then d
    else PBSExit(feeOf, d, number, check.lookup, now, ok)
  }

  // A plate counts until one is known or the exit is stored.
  predicate PlateIgnored(d: Desk, plate: string) {
    plate == "" || plate == NO_PLATE || d.exit.plate != "" || d.saved
  }

  function ReadPlate(feeOf: FeeTable, d: Desk, plate: string, check: Check, now: int, ok: bool): Desk {
    if PlateIgnored(d, plate) then d else CheckNumber(feeOf, d, plate, check, now, ok)
  }

  function ReadCard(feeOf: FeeTable, d: Desk, number: string, check: Check, now: int, ok: bool): Desk {
    CheckNumber(feeOf, d.(exit := d.exit.(card := number)), number, check, now, ok)
  }

  // ---------- Tickets ----------

  predicate Unidentified(x: Exit) {
    x.plate == "" && x.card == ""
  }

  // What a valid redemption ticket leaves on the record.
  function Redeem(feeOf: FeeTable, x: Exit, ticket: Ticket, now: int): Exit
    requires ticket.RedeemTime? || ticket.RedeemAmount?
  {
    var y := x.(redeemNo := ticket.number);
    if ticket.RedeemTime? && ticket.minutes > 0 then
      var z := y.(redeemTime := ticket.minutes);
      if z.paid > 0 then RedeemTime2Amt(feeOf, z, now) else z
    else y.(redeemAmt := if ticket.RedeemAmount? then ticket.amount else 0)
  }

  // A complimentary ticket; if it needs a card it waits for a plate.
  function ScanComplimentary(d: Desk, number: string, needsCard: bool, ok: bool): Desk {
    var x := d.exit.(redeemNo := number);
    if needsCard && x.plate == "" then d.(exit := x)
    else TicketOk(d.(exit := if x.plate == "" then x.(plate := "N/A") else x), ok)
  }

  function ScanRedemption(feeOf: FeeTable, d: Desk, ticket: Ticket, now: int, ok: bool): Desk
    requires ticket.RedeemTime? || ticket.RedeemAmount?
  {
    var x := Redeem(feeOf, d.exit, ticket, now);
    if Unidentified(x) then d.(exit := x)
    else if Due(x) <= 0 then TicketOk(d.(exit := ShowFee(x)), ok)
    else d.(exit := ShowFee(x))
  }

  function TicketScan(feeOf: FeeTable, d: Desk, ticket: Ticket, now: int, ok: bool): Desk {
    if d.exit.redeemAmt > 0 then
      if d.exit.fee >= 1 && Due(d.exit) <= 0 then TicketOk(d, ok) else d.(exit := ShowFee(d.exit))
    else match ticket
      case Refused => d.(exit := ShowFee(d.exit))
      case Complimentary(number, needsCard) => ScanComplimentary(d, number, needsCard, ok)
      case _ => ScanRedemption(feeOf, d, ticket, now, ok)
  }

  // ---------- The central system and the reader ----------

  // An entry time from the central system, and the fee from it to now.
  function Recharge(feeOf: FeeTable, x: Exit, entryTime: int, now: int): Exit {
    x.(entryTime := entryTime, noEntry := 0, exitTime := now, fee := feeOf(x.vehicle, entryTime, now))
  }

  function ReceiveEntry(feeOf: FeeTable, d: Desk, entryTime: int, now: int, ok: bool): Desk {
    var x := SettleFee(feeOf, Recharge(feeOf, d.exit, entryTime, now), now);
    if x.paid > 0 then d.(exit := x.(status := WaitingCard)) else SaveExit(d.(exit := x), ok)
  }

  function DebitOk(d: Desk, number: string, ok: bool): Desk {
    SaveExit(d.(exit := d.exit.(card := number, status := Deducted), last := Last(d.exit.plate, true, number)), ok)
  }

  const CLEAR_EXIT := Exit("", "", UNKNOWN, UNKNOWN, -1, 0, 0, 0, 0, 0, 0, 0, 0, "", false, Idle)

  function Clear(d: Desk): Desk {
    d.(exit := CLEAR_EXIT, saved := false)
  }

  function Step(feeOf: FeeTable, d: Desk, e: Event): Desk {
    match e
    case PlateRead(plate, check, now, ok) => ReadPlate(feeOf, d, plate, check, now, ok)
    case CardRead(number, check, now, ok) => ReadCard(feeOf, d, number, check, now, ok)
    case TicketScanned(ticket, now, ok) => TicketScan(feeOf, d, ticket, now, ok)
    case EntryReceived(entryTime, now, ok) => ReceiveEntry(feeOf, d, entryTime, now, ok)
    case PaySucceeded(number, ok) => DebitOk(d, number, ok)
    case PayRefused => d.(exit := d.exit.(status := InsufficientBalance))
    case Cleared => Clear(d)
  }

  function Run(feeOf: FeeTable, d: Desk, events: seq<Event>): Desk
    decreases |events|
  {
    if events == [] then d else Run(feeOf, Step(feeOf, d, events[0]), events[1..])
  }

  // ---------- Conservation ----------

  predicate Conserves(r: Record) {
    r.fee + r.owe == r.paid + r.rebate + r.redeemed && r.paid >= 0
  }

  // The amount to pay is what the record says is due.
  predicate Synced(x: Exit) {
    x.paid == AtLeastZero(Due(x))
  }

  // An exempt exit that is charged anew, or made exempt again, before it can count as paid.
  predicate StaysExempt(x: Exit) {
    x.exempt && (x.noEntry == 0 || (FreeTicket(x) && x.plate != "" && x.paid == 0))
  }

  /** What every event keeps, but for three kinds: the amount to pay is in step with the record, or the exit is exempt and
      stays so. Without an entry nothing is owed and no negative amount is charged or redeemed, and nothing is charged
      before a plate is known and its entry looked up. With an entry the fee may be anything, error codes included. */
  predicate Settled(x: Exit) {
    && x.rebate >= 0 && x.paid >= 0 && -1 <= x.noEntry <= 1
    && (x.redeemTime > 0 ==> x.redeemNo != "")
    && (x.noEntry != 0 ==> x.owe == 0 && x.fee >= 0 && x.redeemAmt >= -x.rebate)
    && (x.noEntry == -1 || (x.noEntry == 1 && x.plate == "") ==> x.fee == 0)
    && (Synced(x) || StaysExempt(x))
  }

  predicate AllConserve(d: Desk) {
    forall r :: r in d.stored && !r.exempt ==> Conserves(r)
  }

  // Events as their senders make them: no number is empty, and no configured amount negative.
  predicate WellFormed(e: Event) {
    match e
    case PlateRead(_, check, _, _) => WellFormedCheck(check)
    case CardRead(number, check, _, _) => number != "" && WellFormedCheck(check)
    case TicketScanned(RedeemAmount(number, amount), _, _) => number != "" && amount >= 0
    case TicketScanned(RedeemTime(number, _), _, _) => number != ""
    case TicketScanned(Complimentary(number, _), _, _) => number != ""
    case _ => true
  }

  predicate WellFormedCheck(check: Check) {
    "" !in check.specialCards && (check.lookup.autoCharge.Some? ==> check.lookup.autoCharge.value >= 0)
  }

  /** No special card is ever recognised, whatever its number: while a payment is waited for, a number only has it asked for
      again. */
  lemma SpecialCardNotRecognised(feeOf: FeeTable, d: Desk, number: string, check: Check, now: int, ok: bool)
    requires WellFormedCheck(check) && Waits(d)
    ensures CheckNumber(feeOf, d, number, check, now, ok)
         == if TurnedAway(d, number) then d else d.(exit := d.exit.(status := WaitingCard))
  {
  }

  // ---------- The events that lose money ----------

  // What a redemption ticket is worth on the record: its amount, or the money of its minutes.
  function TicketWorth(feeOf: FeeTable, x: Exit, ticket: Ticket, now: int): int
    requires ticket.RedeemTime? || ticket.RedeemAmount?
  {
    match ticket
    case RedeemAmount(_, amount) => amount
    case RedeemTime(_, minutes) =>
      var exitTime := ExitTimeOr(x, now);
      if minutes <= 0 then 0 else RedeemedAmount(feeOf, x.(redeemTime := minutes), exitTime, ParkedMinutes(x, exitTime))
  }

  /** A redemption ticket that is worth another amount than is redeemed, put aside for want of a plate or card while an amount
      is already due. */
  predicate DefersDue(feeOf: FeeTable, d: Desk, e: Event) {
    && e.TicketScanned? && (e.ticket.RedeemTime? || e.ticket.RedeemAmount?)
    && d.exit.redeemAmt <= 0 && Unidentified(d.exit) && d.exit.paid > 0 && !d.exit.exempt
    && TicketWorth(feeOf, d.exit, e.ticket, e.now) != d.exit.redeemAmt
  }

  /** Without an entry, the fee of the ticket's minutes before the exit is an error code, beyond any rebate. */
  predicate MinutesRefused(feeOf: FeeTable, x: Exit, now: int) {
    var exitTime := ExitTimeOr(x, now);
    && x.noEntry == 1 && x.redeemAmt <= 0 && x.redeemTime > 0
    && feeOf(x.vehicle, exitTime - x.redeemTime * 60, exitTime) < -x.rebate
  }

  // A number that is handled as a new exit.
  predicate NewExit(d: Desk, number: string, check: Check) {
    && !TurnedAway(d, number) && !Waits(d) && !JustClosed(d, number, check.recent)
    && number != d.exit.plate && !check.lookup.rejected
  }

  // A number charged without an entry, where the minutes of a waiting ticket are refused.
  predicate ChargesRefused(feeOf: FeeTable, d: Desk, number: string, check: Check, now: int) {
    && NewExit(d, number, check) && check.lookup.autoCharge.Some?
    && var x := Arrive(d.exit, number, check.lookup);
       !SeasonFree(x, check.lookup) && !FreeTicket(x) && MinutesRefused(feeOf, x.(exitTime := now), now)
  }

  /** Minutes that the tariff refuses are redeemed on an exit without an entry. */
  predicate RedeemsRefused(feeOf: FeeTable, d: Desk, e: Event) {
    match e
    case TicketScanned(RedeemTime(_, minutes), now, _) =>
      minutes > 0 && d.exit.paid > 0 && MinutesRefused(feeOf, d.exit.(redeemTime := minutes), now)
    case PlateRead(plate, check, now, _) => !PlateIgnored(d, plate) && ChargesRefused(feeOf, d, plate, check, now)
    case CardRead(number, check, now, _) => ChargesRefused(feeOf, d, number, check, now)
    case _ => false
  }

  /** A complimentary ticket closes an exit while an amount is due and an error code stands as redeemed. */
  predicate WaivesRefused(d: Desk, e: Event) {
    && e.TicketScanned? && e.ticket.Complimentary? && !(e.ticket.needsCard && d.exit.plate == "")
    && d.exit.redeemAmt < 0 && Due(d.exit) > 0 && !(d.exit.exempt && d.exit.noEntry == 0)
  }

  predicate Loses(feeOf: FeeTable, d: Desk, e: Event) {
    DefersDue(feeOf, d, e) || RedeemsRefused(feeOf, d, e) || WaivesRefused(d, e)
  }

  // A run without an event that loses money.
  predicate Regular(feeOf: FeeTable, d: Desk, events: seq<Event>)
    decreases |events|
  {
    events == [] ||
    (WellFormed(events[0]) && !Loses(feeOf, d, events[0]) && Regular(feeOf, Step(feeOf, d, events[0]), events[1..]))
  }

  predicate Kept(d: Desk) {
    Settled(d.exit) && AllConserve(d)
  }

  // As no handler grants a rebate, minutes are redeemed as an error code only when a ticket is scanned.
  lemma RefusedOnlyByTicket(feeOf: FeeTable, d: Desk, e: Event)
    requires Kept(d) && d.exit.rebate == 0 && RedeemsRefused(feeOf, d, e)
    ensures e.TicketScanned? && d.exit.noEntry == 1 && d.exit.redeemAmt == 0
  {
  }

  // ---------- Every other event keeps the desk settled ----------

  lemma SaveKeeps(d: Desk, ok: bool)
    requires Kept(d)
    ensures Kept(SaveExit(d, ok))
  {
  }

  lemma TicketOkKeeps(d: Desk, ok: bool)
    requires Settled(d.exit.(paid := 0, exempt := true)) && AllConserve(d)
    requires Due(d.exit) <= 0 || (FreeTicket(d.exit) && d.exit.plate != "") || (d.exit.exempt && d.exit.noEntry == 0)
    ensures Kept(TicketOk(d, ok))
  {
    var x := d.exit.(paid := 0);
    SaveKeeps(d.(exit := if FreeTicket(x) then MakeComplimentary(x) else x), ok);
  }

  lemma RedeemTimeKeeps(feeOf: FeeTable, x: Exit, now: int)
    requires x.noEntry != -1 && !MinutesRefused(feeOf, x, now)
    ensures var y := RedeemTime2Amt(feeOf, x, now);
            && y == x.(parked := y.parked, redeemAmt := y.redeemAmt)
            && (x.noEntry == 1 && x.redeemAmt >= -x.rebate ==> y.redeemAmt >= -x.rebate)
  {
  }

  lemma SettleKeeps(feeOf: FeeTable, x: Exit, now: int)
    requires x.noEntry != -1 && !MinutesRefused(feeOf, x, now)
    ensures var y := SettleFee(feeOf, x, now);
            && y == x.(parked := y.parked, redeemAmt := y.redeemAmt, paid := y.paid)
            && (x.noEntry == 1 && x.redeemAmt >= -x.rebate ==> y.redeemAmt >= -x.rebate)
            && y.paid >= 0 && Synced(y)
  {
    RedeemTimeKeeps(feeOf, x, now);
    hide RedeemTime2Amt, MinutesRefused;
  }

  // The record of a number that has arrived, not charged yet.
  predicate Arrived(x: Exit) {
    && x.rebate >= 0 && x.paid >= 0 && x.plate != "" && !x.exempt && 0 <= x.noEntry <= 1
    && (x.redeemTime > 0 ==> x.redeemNo != "")
    && (x.noEntry == 1 ==>
          x.owe == 0 && x.fee >= 0 && x.redeemAmt >= -x.rebate && (Synced(x) || FreeTicket(x)))
  }

  lemma ArriveKeeps(x: Exit, plate: string, lookup: Lookup)
    requires Settled(x) && plate != ""
    ensures Arrived(Arrive(x, plate, lookup))
  {
  }

  lemma CloseKeeps(d: Desk, ok: bool)
    requires Kept(d) && d.exit.plate != "" && d.exit.noEntry != -1 && Synced(d.exit)
    ensures Kept(CloseOrWait(d, ok))
  {
    if FreeTicket(d.exit) {
      SaveKeeps(d.(exit := MakeComplimentary(d.exit)), ok);
    } else if d.exit.paid <= 0 {
      SaveKeeps(d, ok);
    }
  }

  lemma ChargeStayKeeps(feeOf: FeeTable, d: Desk, lookup: Lookup, now: int, ok: bool)
    requires Arrived(d.exit) && AllConserve(d) && (d.exit.noEntry == 1 ==> !FreeTicket(d.exit))
    requires lookup.autoCharge.Some? ==> lookup.autoCharge.value >= 0
    requires lookup.autoCharge.Some? ==> !MinutesRefused(feeOf, d.exit.(exitTime := now), now)
    ensures Kept(ChargeStay(feeOf, d, lookup, now, ok))
  {
    if FeeAtExit(feeOf, d.exit, lookup, now).Some? {
      var x := FeeAtExit(feeOf, d.exit, lookup, now).value;
      hide StayFee, SettleFee, SaveExit;
      if SeasonWhole(x, lookup.season) {
        SaveKeeps(d.(exit := x.(paid := 0, exempt := true)), ok);
      } else {
        SettleKeeps(feeOf, x, now);
        CloseKeeps(d.(exit := SettleFee(feeOf, x, now)), ok);
      }
    }
  }

  lemma ChargeKeeps(feeOf: FeeTable, d: Desk, lookup: Lookup, now: int, ok: bool)
    requires Arrived(d.exit) && AllConserve(d)
    requires lookup.autoCharge.Some? ==> lookup.autoCharge.value >= 0
    requires !(lookup.autoCharge.Some? && !SeasonFree(d.exit, lookup) && !FreeTicket(d.exit)
               && MinutesRefused(feeOf, d.exit.(exitTime := now), now))
    ensures Kept(ChargeExit(feeOf, d, lookup, now, ok))
  {
    hide ChargeStay, SaveExit;
    if SeasonFree(d.exit, lookup) {
      SaveKeeps(d.(exit := SeasonClosed(d.exit, now)), ok);
    } else if d.exit.noEntry == 1 && FreeTicket(d.exit) {
      SaveKeeps(d.(exit := MakeComplimentary(d.exit)), ok);
    } else {
      ChargeStayKeeps(feeOf, d, lookup, now, ok);
    }
  }

  lemma NumberKeeps(feeOf: FeeTable, d: Desk, number: string, check: Check, now: int, ok: bool)
    requires Kept(d) && number != "" && WellFormedCheck(check) && !ChargesRefused(feeOf, d, number, check, now)
    ensures Kept(CheckNumber(feeOf, d, number, check, now, ok))
  {
    hide ChargeExit, MinutesRefused;
    if NewExit(d, number, check) {
      hide SaveExit, TurnedAway, Waits, JustClosed;
      ArriveKeeps(d.exit, number, check.lookup);
      ChargeKeeps(feeOf, d.(exit := Arrive(d.exit, number, check.lookup)), check.lookup, now, ok);
    }
  }

  lemma ComplimentaryKeeps(d: Desk, number: string, needsCard: bool, ok: bool)
    requires Kept(d) && d.exit.redeemAmt <= 0 && number != ""
    requires (needsCard && d.exit.plate == "") || d.exit.redeemAmt == 0 || Due(d.exit) <= 0
             || (d.exit.exempt && d.exit.noEntry == 0)
    ensures Kept(ScanComplimentary(d, number, needsCard, ok))
  {
    hide TicketOk;
    var x := d.exit.(redeemNo := number);
    if !(needsCard && x.plate == "") {
      TicketOkKeeps(d.(exit := if x.plate == "" then x.(plate := "N/A") else x), ok);
    }
  }

  lemma TicketKeeps(feeOf: FeeTable, d: Desk, ticket: Ticket, now: int, ok: bool)
    requires Kept(d) && WellFormed(TicketScanned(ticket, now, ok)) && !Loses(feeOf, d, TicketScanned(ticket, now, ok))
    ensures Kept(TicketScan(feeOf, d, ticket, now, ok))
  {
    hide ScanComplimentary, ScanRedemption, TicketOk, DefersDue, MinutesRefused;
    if d.exit.redeemAmt > 0 {
      if d.exit.fee >= 1 && Due(d.exit) <= 0 { TicketOkKeeps(d, ok); }
    } else if ticket.Complimentary? {
      ComplimentaryKeeps(d, ticket.number, ticket.needsCard, ok);
    } else if !ticket.Refused? {
      RedemptionKeeps(feeOf, d, ticket, now, ok);
    }
  }

  // A redemption leaves the record as it was, but for what the ticket is worth.
  lemma RedeemWorth(feeOf: FeeTable, x: Exit, ticket: Ticket, now: int)
    requires x.redeemAmt <= 0 && (ticket.RedeemTime? || ticket.RedeemAmount?)
    ensures var y := Redeem(feeOf, x, ticket, now);
            && y == x.(redeemNo := ticket.number, redeemTime := y.redeemTime, parked := y.parked, redeemAmt := y.redeemAmt)
            && (y.redeemTime == x.redeemTime || y.redeemTime > 0)
            && (x.paid > 0 ==> y.redeemAmt == TicketWorth(feeOf, x, ticket, now))
            && (x.paid <= 0 ==>
                  y.redeemAmt == if ticket.RedeemAmount? then ticket.amount else if ticket.minutes > 0 then x.redeemAmt else 0)
  {
  }

  // Without an entry the worth is no error code.
  lemma WorthAtLeast(feeOf: FeeTable, x: Exit, ticket: Ticket, now: int)
    requires x.redeemAmt <= 0 && x.noEntry == 1 && x.rebate >= 0
    requires ticket.RedeemTime? || (ticket.RedeemAmount? && ticket.amount >= 0)
    requires ticket.RedeemTime? && ticket.minutes > 0 ==> !MinutesRefused(feeOf, x.(redeemTime := ticket.minutes), now)
    ensures TicketWorth(feeOf, x, ticket, now) >= -x.rebate
  {
  }

  // Nothing is due before a plate is known, but for an entry that was sent.
  lemma DueHasEntry(x: Exit)
    requires Settled(x) && x.paid > 0
    ensures x.noEntry == 0 || (x.noEntry == 1 && x.plate != "")
  {
  }

  // What a redemption may change: the number, the minutes and the amount, which is no error code without an entry.
  predicate Redeemed(x: Exit, y: Exit) {
    && y == x.(redeemNo := y.redeemNo, redeemTime := y.redeemTime, parked := y.parked, redeemAmt := y.redeemAmt)
    && y.redeemNo != "" && (y.noEntry != 0 ==> y.redeemAmt >= -y.rebate)
  }

  lemma RedeemKeepsRecord(feeOf: FeeTable, x: Exit, ticket: Ticket, now: int)
    requires Settled(x) && x.redeemAmt <= 0 && (ticket.RedeemTime? || ticket.RedeemAmount?)
    requires ticket.number != "" && (ticket.RedeemAmount? ==> ticket.amount >= 0)
    requires ticket.RedeemTime? && ticket.minutes > 0 && x.paid > 0 ==>
               !MinutesRefused(feeOf, x.(redeemTime := ticket.minutes), now)
    ensures Redeemed(x, Redeem(feeOf, x, ticket, now))
  {
    RedeemWorth(feeOf, x, ticket, now);
    if x.paid > 0 { DueHasEntry(x); }
    if x.paid > 0 && x.noEntry == 1 { WorthAtLeast(feeOf, x, ticket, now); }
    hide Redeem, TicketWorth, MinutesRefused, Synced, StaysExempt;
  }

  // Put aside, the ticket leaves the amount due as it is, or nothing was due.
  lemma AsideKeeps(feeOf: FeeTable, d: Desk, ticket: Ticket, now: int, ok: bool)
    requires Kept(d) && d.exit.redeemAmt <= 0 && (ticket.RedeemTime? || ticket.RedeemAmount?) && Unidentified(d.exit)
    requires WellFormed(TicketScanned(ticket, now, ok)) && !DefersDue(feeOf, d, TicketScanned(ticket, now, ok))
    requires Redeemed(d.exit, Redeem(feeOf, d.exit, ticket, now))
    ensures Settled(Redeem(feeOf, d.exit, ticket, now))
  {
    RedeemWorth(feeOf, d.exit, ticket, now);
    if d.exit.paid > 0 { DueHasEntry(d.exit); }
    hide Redeem, TicketWorth, AllConserve;
  }

  lemma RedemptionKeeps(feeOf: FeeTable, d: Desk, ticket: Ticket, now: int, ok: bool)
    requires Kept(d) && d.exit.redeemAmt <= 0 && (ticket.RedeemTime? || ticket.RedeemAmount?)
    requires WellFormed(TicketScanned(ticket, now, ok)) && !DefersDue(feeOf, d, TicketScanned(ticket, now, ok))
    requires !RedeemsRefused(feeOf, d, TicketScanned(ticket, now, ok))
    ensures Kept(ScanRedemption(feeOf, d, ticket, now, ok))
  {
    RedeemKeepsRecord(feeOf, d.exit, ticket, now);
    var x := Redeem(feeOf, d.exit, ticket, now);
    if Unidentified(x) {
      AsideKeeps(feeOf, d, ticket, now, ok);
      hide Redeem, Settled;
    } else {
      hide Redeem, DefersDue, MinutesRefused, TicketOk;
      if Due(x) <= 0 { TicketOkKeeps(d.(exit := ShowFee(x)), ok); }
    }
  }

  lemma ReceiveKeeps(feeOf: FeeTable, d: Desk, entryTime: int, now: int, ok: bool)
    requires Kept(d)
    ensures Kept(ReceiveEntry(feeOf, d, entryTime, now, ok))
  {
    var y := Recharge(feeOf, d.exit, entryTime, now);
    SettleKeeps(feeOf, y, now);
    hide SettleFee, SaveExit;
    var z := SettleFee(feeOf, y, now);
    if z.paid <= 0 { SaveKeeps(d.(exit := z), ok); }
  }

  lemma DebitKeeps(d: Desk, number: string, ok: bool)
    requires Kept(d)
    ensures Kept(DebitOk(d, number, ok))
  {
    hide SaveExit;
    SaveKeeps(d.(exit := d.exit.(card := number, status := Deducted), last := Last(d.exit.plate, true, number)), ok);
  }

  lemma StepKeeps(feeOf: FeeTable, d: Desk, e: Event)
    requires Kept(d) && WellFormed(e) && !Loses(feeOf, d, e)
    ensures Kept(Step(feeOf, d, e))
  {
    match e
    case PlateRead(plate, check, now, ok) =>
      hide CheckNumber, Kept, ChargesRefused, DefersDue, WaivesRefused;
      if !PlateIgnored(d, plate) { NumberKeeps(feeOf, d, plate, check, now, ok); }
    case CardRead(number, check, now, ok) =>
      hide ReadCard, Kept, ChargesRefused, DefersDue, WaivesRefused;
      CardKeeps(feeOf, d, number, check, now, ok);
    case TicketScanned(ticket, now, ok) =>
      hide TicketScan, Kept, Loses, WellFormed;
      TicketKeeps(feeOf, d, ticket, now, ok);
    case EntryReceived(entryTime, now, ok) =>
      hide ReceiveEntry, Kept;
      ReceiveKeeps(feeOf, d, entryTime, now, ok);
    case PaySucceeded(number, ok) =>
      hide DebitOk, Kept;
      DebitKeeps(d, number, ok);
    case _ =>
      hide Loses;
  }

  lemma CardKeeps(feeOf: FeeTable, d: Desk, number: string, check: Check, now: int, ok: bool)
    requires Kept(d) && number != "" && WellFormedCheck(check) && !ChargesRefused(feeOf, d, number, check, now)
    ensures Kept(ReadCard(feeOf, d, number, check, now, ok))
  {
    var read := d.(exit := d.exit.(card := number));
    assert ChargesRefused(feeOf, read, number, check, now) == ChargesRefused(feeOf, d, number, check, now);
    hide CheckNumber, ChargesRefused;
    NumberKeeps(feeOf, read, number, check, now, ok);
  }

  /** Settlement conserves money: over every run of events, in any order, from any settled desk, under any fees, error codes
      included, every record that is stored and not exempt has fee + owed = paid + rebate + redeemed, as long as no event is
      of the three kinds that lose money. */
  lemma {:induction false} RunConserves(feeOf: FeeTable, d: Desk, events: seq<Event>)
    requires Kept(d) && Regular(feeOf, d, events)
    ensures Kept(Run(feeOf, d, events))
    decreases |events|
  {
    hide Step, Kept, Loses;
    if events != [] {
      StepKeeps(feeOf, d, events[0]);
      RunConserves(feeOf, Step(feeOf, d, events[0]), events[1..]);
    }
  }

  lemma ClosingGrantsNone(feeOf: FeeTable)
    ensures forall d: Desk, ok: bool {:trigger SaveExit(d, ok)} :: SaveExit(d, ok).exit.rebate == d.exit.rebate
    ensures forall d: Desk, ok: bool {:trigger TicketOk(d, ok)} :: TicketOk(d, ok).exit.rebate == d.exit.rebate
    ensures forall x: Exit, now: int {:trigger RedeemTime2Amt(feeOf, x, now)} ::
              RedeemTime2Amt(feeOf, x, now).rebate == x.rebate
  {
  }

  lemma NumberGrantsNone(feeOf: FeeTable, d: Desk, number: string, check: Check, now: int, ok: bool)
    ensures CheckNumber(feeOf, d, number, check, now, ok).exit.rebate == d.exit.rebate
  {
    ClosingGrantsNone(feeOf);
    ChargeGrantsNone(feeOf, d.(exit := Arrive(d.exit, number, check.lookup)), check.lookup, now, ok);
    hide SaveExit, RedeemTime2Amt, ChargeExit;
  }

  lemma ChargeGrantsNone(feeOf: FeeTable, d: Desk, lookup: Lookup, now: int, ok: bool)
    ensures ChargeExit(feeOf, d, lookup, now, ok).exit.rebate == d.exit.rebate
  {
    ClosingGrantsNone(feeOf);
    hide SaveExit, RedeemTime2Amt, StayFee;
    var charged := FeeAtExit(feeOf, d.exit, lookup, now);
    assert charged.Some? ==> charged.value.rebate == d.exit.rebate;
    hide FeeAtExit;
  }

  lemma TicketGrantsNone(feeOf: FeeTable, d: Desk, ticket: Ticket, now: int, ok: bool)
    ensures TicketScan(feeOf, d, ticket, now, ok).exit.rebate == d.exit.rebate
  {
    ClosingGrantsNone(feeOf);
    hide SaveExit, TicketOk, RedeemTime2Amt;
  }

  lemma ReceiveGrantsNone(feeOf: FeeTable, d: Desk, entryTime: int, now: int, ok: bool)
    ensures ReceiveEntry(feeOf, d, entryTime, now, ok).exit.rebate == d.exit.rebate
  {
    ClosingGrantsNone(feeOf);
    hide SaveExit, RedeemTime2Amt;
  }

  // No handler grants a rebate.
  lemma NoRebateGranted(feeOf: FeeTable, d: Desk, e: Event)
    requires d.exit.rebate == 0
    ensures Step(feeOf, d, e).exit.rebate == 0
  {
    ClosingGrantsNone(feeOf);
    hide SaveExit, RedeemTime2Amt, CheckNumber, TicketScan, ReceiveEntry;
    match e
    case PlateRead(plate, check, now, ok) => NumberGrantsNone(feeOf, d, plate, check, now, ok);
    case CardRead(number, check, now, ok) =>
      NumberGrantsNone(feeOf, d.(exit := d.exit.(card := number)), number, check, now, ok);
    case TicketScanned(ticket, now, ok) => TicketGrantsNone(feeOf, d, ticket, now, ok);
    case EntryReceived(entryTime, now, ok) => ReceiveGrantsNone(feeOf, d, entryTime, now, ok);
    case _ =>
  }

  lemma ClearedIsSettled()
    ensures Settled(CLEAR_EXIT) && CLEAR_EXIT.rebate == 0
  {
  }

  // ---------- How they lose it ----------

  const NO_SEASON := Season(8, 0, 0, 0)

  // A number that the blacklist rejects, one that nothing is known of, and one with a season that is not charged.
  const REJECTED := Check({}, false, Lookup(true, None, None, 0, NO_SEASON, false))
  const UNKNOWN_NUMBER := Check({}, false, Lookup(false, None, None, 0, NO_SEASON, false))
  const SEASON_NUMBER := Check({}, false, Lookup(false, None, None, 0, Season(1, 0, 0, 0), false))

  // The run of one more event.
  lemma {:induction false} RunMore(feeOf: FeeTable, d: Desk, events: seq<Event>, e: Event)
    ensures Run(feeOf, d, events + [e]) == Step(feeOf, Run(feeOf, d, events), e)
    decreases |events|
  {
    hide Step;
    if events == [] {
      assert [] + [e] == [e] && [e][1..] == [];
      assert Run(feeOf, d, [e]) == Run(feeOf, Step(feeOf, d, e), []);
    } else {
      assert (events + [e])[1..] == events[1..] + [e];
      RunMore(feeOf, Step(feeOf, d, events[0]), events[1..], e);
    }
  }

  /** Conservation does fail when a ticket is put aside while an amount is due. The central system sends an entry before any
      plate is read, an amount ticket is scanned and put aside, two numbers are read that ask for the payment, the first
      payment finds no plate to store, a plate is read and rejected, and the second payment stores 10.00 paid and 5.00
      redeemed for a fee of 10.00. */
  lemma DeferredTicketLosesMoney(plate: string, number: string, card: string, check: Check, last: Last)
    requires plate != "" && plate != NO_PLATE && WellFormedCheck(check)
    ensures var feeOf: FeeTable := (vehicle, start, end) => 1000;
            var read := PlateRead(plate, check, 3750, true);
            var events := [EntryReceived(0, 3600, true), TicketScanned(RedeemAmount(number, 500), 3700, true), read, read,
                           PaySucceeded(card, true), PlateRead(plate, REJECTED, 3800, true), PaySucceeded(card, true)];
            var d := Run(feeOf, Desk(CLEAR_EXIT, [], last, false), events);
            d.stored == [Record(plate, 1000, 0, 1000, 0, 500, 60, false)]
  {
    var feeOf: FeeTable := (vehicle, start, end) => 1000;
    var read := PlateRead(plate, check, 3750, true);
    var e1, e2 := EntryReceived(0, 3600, true), TicketScanned(RedeemAmount(number, 500), 3700, true);
    var e3, e4 := PaySucceeded(card, true), PlateRead(plate, REJECTED, 3800, true);
    var d0 := Desk(CLEAR_EXIT, [], last, false);
    var d1 := Step(feeOf, d0, e1);
    assert d1.exit.paid == 1000 && d1.exit.fee == 1000 && d1.exit.status == WaitingCard && d1.exit.plate == "";
    var d2 := Step(feeOf, d1, e2);
    assert d2 == d1.(exit := d1.exit.(redeemNo := number, redeemAmt := 500));
    assert Step(feeOf, d2, read) == d2;
    var d3 := Step(feeOf, d2, e3);
    assert d3.exit == d2.exit.(card := card, status := Deducted) && d3.stored == [] && !d3.saved;
    var d4 := Step(feeOf, d3, e4);
    assert d4.exit == d3.exit.(plate := plate) && d4.stored == [];
    var d5 := Step(feeOf, d4, e3);
    assert d5.stored == [Record(plate, 1000, 0, 1000, 0, 500, 60, false)];
    hide Step;
    assert Run(feeOf, d0, []) == d0;
    RunMore(feeOf, d0, [], e1);
    RunMore(feeOf, d0, [] + [e1], e2);
    RunMore(feeOf, d0, [] + [e1] + [e2], read);
    RunMore(feeOf, d0, [] + [e1] + [e2] + [read], read);
    RunMore(feeOf, d0, [] + [e1] + [e2] + [read] + [read], e3);
    RunMore(feeOf, d0, [] + [e1] + [e2] + [read] + [read] + [e3], e4);
    RunMore(feeOf, d0, [] + [e1] + [e2] + [read] + [read] + [e3] + [e4], e3);
    assert [] + [e1] + [e2] + [read] + [read] + [e3] + [e4] + [e3] == [e1, e2, read, read, e3, e4, e3];
  }

  ghost predicate AlwaysConserves(feeOf: FeeTable, d: Desk) {
    forall events :: Regular(feeOf, d, events) ==> AllConserve(Run(feeOf, d, events))
  }

  // A desk that has lost money, and one that loses it after an event more.
  lemma LostNow(feeOf: FeeTable, d: Desk)
    requires !AllConserve(d)
    ensures !AlwaysConserves(feeOf, d)
  {
    assert Regular(feeOf, d, []) && Run(feeOf, d, []) == d;
  }

  lemma LostAfter(feeOf: FeeTable, d: Desk, e: Event)
    requires WellFormed(e) && !Loses(feeOf, d, e) && !AlwaysConserves(feeOf, Step(feeOf, d, e))
    ensures !AlwaysConserves(feeOf, d)
  {
    hide Step, Loses, WellFormed, AllConserve;
    var next := Step(feeOf, d, e);
    var events :| Regular(feeOf, next, events) && !AllConserve(Run(feeOf, next, events));
    assert ([e] + events)[1..] == events;
    assert Regular(feeOf, d, [e] + events) && Run(feeOf, d, [e] + events) == Run(feeOf, next, events);
  }

  // A payment out of step with the record is stored as it is.
  lemma UnsyncedDebit(feeOf: FeeTable, d: Desk, card: string)
    requires d.exit.plate != "" && !d.exit.exempt && d.exit.paid >= 0 && !Synced(d.exit)
    ensures !AlwaysConserves(feeOf, d)
  {
    var next := DebitOk(d, card, true);
    var stored := next.stored[|next.stored| - 1];
    assert stored in next.stored && stored == RecordOf(next.exit);
    assert Step(feeOf, d, PaySucceeded(card, true)) == next;
    hide Step, DebitOk;
    LostNow(feeOf, next);
    LostAfter(feeOf, d, PaySucceeded(card, true));
  }

  // With no plate known, a payment is not stored, and a rejected number becomes the plate.
  lemma UnknownPlate(feeOf: FeeTable, d: Desk, card: string)
    requires d.exit.plate == "" && !d.exit.exempt && d.exit.paid >= 0 && !Synced(d.exit) && card != ""
    ensures !AlwaysConserves(feeOf, d)
  {
    var pay, read := PaySucceeded(card, true), CardRead(card, REJECTED, 0, true);
    var d1 := DebitOk(d, card, true);
    assert d1 == d.(exit := d.exit.(card := card, status := Deducted), last := Last("", true, card));
    var d2 := ReadCard(feeOf, d1, card, REJECTED, 0, true);
    assert d2 == d1.(exit := d1.exit.(plate := card));
    assert Step(feeOf, d, pay) == d1 && Step(feeOf, d1, read) == d2;
    UnsyncedDebit(feeOf, d2, card);
    hide Step, DebitOk, ReadCard, Synced;
    LostAfter(feeOf, d1, read);
    LostAfter(feeOf, d, pay);
  }

  lemma DeferredDebt(feeOf: FeeTable, d: Desk, e: Event)
    requires Kept(d) && DefersDue(feeOf, d, e)
    ensures !AlwaysConserves(feeOf, Step(feeOf, d, e))
  {
    RedeemWorth(feeOf, d.exit, e.ticket, e.now);
    hide Redeem, TicketWorth;
    var next := Step(feeOf, d, e);
    assert next == d.(exit := Redeem(feeOf, d.exit, e.ticket, e.now));
    hide Step;
    UnknownPlate(feeOf, next, "CARD");
  }

  // An exit without an entry on which an error code stands as redeemed.
  predicate RefusedStands(x: Exit) {
    x.noEntry == 1 && x.plate != "" && x.rebate >= 0 && x.owe == 0 && x.redeemAmt < -x.rebate && x.fee >= 0
  }

  // The payment is stored, a season closes the exit free, and the next number finds nothing to charge.
  lemma RefusedIsLost(feeOf: FeeTable, d: Desk)
    requires RefusedStands(d.exit)
    ensures !AlwaysConserves(feeOf, d)
  {
    var x := d.exit;
    var pay := PaySucceeded("CARD", true);
    var d1 := DebitOk(d, "CARD", true);
    assert d1.exit == x.(card := "CARD", status := Deducted) && d1.last.plate == x.plate;
    assert Step(feeOf, d, pay) == d1;
    hide DebitOk;
    SeasonThenUnknown(feeOf, d1);
    hide Step;
    LostAfter(feeOf, d, pay);
  }

  lemma SeasonThenUnknown(feeOf: FeeTable, d: Desk)
    requires RefusedStands(d.exit) && d.exit.status == Deducted && d.last.plate == d.exit.plate
    ensures !AlwaysConserves(feeOf, d)
  {
    var season := d.exit.plate + "Z";
    assert season != d.exit.plate;
    var e := CardRead(season, SEASON_NUMBER, 0, true);
    var d1 := ReadCard(feeOf, d, season, SEASON_NUMBER, 0, true);
    SeasonCloses(feeOf, d, season);
    assert Step(feeOf, d, e) == d1 && !Loses(feeOf, d, e);
    hide ReadCard;
    NothingToCharge(feeOf, d1);
    hide Step, Loses;
    LostAfter(feeOf, d, e);
  }

  lemma SeasonCloses(feeOf: FeeTable, d: Desk, number: string)
    requires RefusedStands(d.exit) && d.exit.status == Deducted
    requires number != "" && number != d.exit.plate && d.last.plate == d.exit.plate
    ensures var x := d.exit;
            var d1 := ReadCard(feeOf, d, number, SEASON_NUMBER, 0, true);
            && RefusedStands(d1.exit) && d1.exit.status == Deducted && d1.last.plate == d1.exit.plate
            && d1.exit.fee == d1.exit.paid == 0
  {
    var read := d.(exit := d.exit.(card := number));
    var x := Arrive(read.exit, number, SEASON_NUMBER.lookup);
    assert ChargeExit(feeOf, read.(exit := x), SEASON_NUMBER.lookup, 0, true)
        == SaveExit(read.(exit := SeasonClosed(x, 0)), true);
    hide ChargeExit;
  }

  lemma NothingToCharge(feeOf: FeeTable, d: Desk)
    requires RefusedStands(d.exit) && d.exit.status == Deducted && d.last.plate == d.exit.plate
    requires d.exit.fee == d.exit.paid == 0
    ensures !AlwaysConserves(feeOf, d)
  {
    var number := d.exit.plate + "Z";
    assert number != d.exit.plate;
    var e := CardRead(number, UNKNOWN_NUMBER, 0, true);
    var d1 := ReadCard(feeOf, d, number, UNKNOWN_NUMBER, 0, true);
    assert d1.exit == d.exit.(plate := number, card := number, vehicle := 0, exempt := false);
    assert Step(feeOf, d, e) == d1 && !Loses(feeOf, d, e);
    hide ReadCard;
    UnsyncedDebit(feeOf, d1, "CARD");
    hide Step, Loses;
    LostAfter(feeOf, d, e);
  }

  lemma RefusedMinutes(feeOf: FeeTable, d: Desk, e: Event)
    requires Kept(d) && d.exit.rebate == 0 && RedeemsRefused(feeOf, d, e)
    ensures !AlwaysConserves(feeOf, Step(feeOf, d, e))
  {
    RefusedOnlyByTicket(feeOf, d, e);
    DueHasEntry(d.exit);
    RefusedTicket(feeOf, d, e.ticket, e.now, e.ok);
    assert Step(feeOf, d, e) == TicketScan(feeOf, d, e.ticket, e.now, e.ok);
    hide Step, TicketScan;
    RefusedIsLost(feeOf, TicketScan(feeOf, d, e.ticket, e.now, e.ok));
  }

  lemma RefusedTicket(feeOf: FeeTable, d: Desk, ticket: Ticket, now: int, ok: bool)
    requires Kept(d) && ticket.RedeemTime? && ticket.minutes > 0 && d.exit.paid > 0 && d.exit.plate != ""
    requires MinutesRefused(feeOf, d.exit.(redeemTime := ticket.minutes), now)
    ensures RefusedStands(TicketScan(feeOf, d, ticket, now, ok).exit)
  {
    RedeemWorth(feeOf, d.exit, ticket, now);
    assert TicketWorth(feeOf, d.exit, ticket, now) < -d.exit.rebate;
    hide Redeem, TicketWorth, TicketOk, MinutesRefused;
  }

  // A complimentary ticket that does not count as one: the amount due is stored as unpaid.
  lemma WaivedDebt(feeOf: FeeTable, d: Desk, e: Event)
    requires Kept(d) && d.exit.rebate == 0 && WaivesRefused(d, e)
    ensures !AlwaysConserves(feeOf, Step(feeOf, d, e))
  {
    var next := Step(feeOf, d, e);
    var x := d.exit.(redeemNo := e.ticket.number, plate := if d.exit.plate == "" then "N/A" else d.exit.plate, paid := 0);
    assert next == SaveExit(d.(exit := x), e.ok);
    var stored := next.stored[|next.stored| - 1];
    assert stored in next.stored && stored == RecordOf(Adjust(x));
    hide Step;
    LostNow(feeOf, next);
  }

  /** These are the only ways: with no rebate, and no handler grants one, an event leaves every continuation of a settled desk
      conserving exactly when it neither puts a ticket of another worth aside while an amount is due, nor redeems minutes that
      the tariff refuses without an entry, nor closes by a complimentary ticket an exit on which an error code stands as
      redeemed. */
  lemma EventConservesExactly(feeOf: FeeTable, d: Desk, e: Event)
    requires Kept(d) && d.exit.rebate == 0 && WellFormed(e)
    ensures AlwaysConserves(feeOf, Step(feeOf, d, e)) <==> !Loses(feeOf, d, e)
  {
    var next := Step(feeOf, d, e);
    if DefersDue(feeOf, d, e) {
      DeferredDebt(feeOf, d, e);
    } else if RedeemsRefused(feeOf, d, e) {
      RefusedMinutes(feeOf, d, e);
    } else if WaivesRefused(d, e) {
      WaivedDebt(feeOf, d, e);
    } else {
      StepKeeps(feeOf, d, e);
      hide Step, Settled, AllConserve, Loses;
      forall events | Regular(feeOf, next, events) ensures AllConserve(Run(feeOf, next, events)) {
        RunConserves(feeOf, next, events);
      }
    }
  }
}
