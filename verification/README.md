# Parking station: a verified model

The repository runs an unattended parking entry or exit: it computes fees from a tariff, settles exits, stores them while
the central database is away, keeps tables in step with it, and watches the vehicle loop. This project models the parts
of it that carry the money and the promises, and proves what they keep.

| file | models |
|---|---|
| `Common.dfy` | what several components share |
| `Calendar.dfy` | Gregorian dates, day numbers and weekdays (ce_time.cpp) |
| `Tariff.dfy`, `TariffDays.dfy` | tariff rows, day types, the table of one day assembled from three rows; which row and zone charge a date and minute |
| `FeeEngine.dfy` | one pass of the fee loop as a function on its state, the run of passes, termination |
| `FeeLoop.dfy` | the same loop as the source runs it: arrays filled per day, an object whose fields the nested loops update |
| `ZoneCharge.dfy`, `FeeMonotone.dfy`, `FeeDayCap.dfy`, `FeeDayBlocks.dfy`, `FeeDayBlocksMonotone.dfy`, `FeeUniform.dfy`, `FeeLimits.dfy`, `FeeStays.dfy`, `TariffRows.dfy` | what the fee means |
| `SpecialDay.dfy`, `FeeFalls.dfy`, `FeeFreeTime.dfy` | stations at which a longer stay costs less; when a stay has its free time again |
| `FeePeriods.dfy` | which of two tariff periods charges a stay |
| `Settlement.dfy`, `ExitDesk.dfy`, `Outcomes.dfy`, `Redemption.dfy` | the exit record under events in any order, as functions and as the shared object; conservation of money; what each event comes to; redemption by time |
| `TariffTable.dfy` | the tariff table in memory and its loader |
| `SqlCall.dfy`, `ExitStore.dfy`, `SeasonSync.dfy` | store-and-forward of exits and the season download, with every SQL call free to fail |
| `LoopSensor.dfy` | sampler, event queue and consumer of the vehicle loop |
| `PlateMatch.dfy`, `UdpMessage.dfy` | plate similarity and the scan for the best match; the message parser and printer |

Time is whole minutes of local time counted from 1970-01-01 in the fee engine (after the adjustment for seconds every test
of the source is on whole minutes, hours or days) and seconds at its edge. Money is whole hundredths. The clock, the
answers of the databases, of the motorcycle lookup and of the SQL statements, the pin samples and the scheduling of
threads are parameters over which every statement quantifies. A statement that may fail has a `Reply`: whether it took
effect and whether it was reported to have; only a reported success that took no effect is excluded.

Where the source updates state, the state is a class and each method is proved against a function; what is promised is then
proved of the functions over all runs.

## What the proofs found

- A fee in 24-hour mode is stored in an integer and loses its fraction (db.cpp:6752, 6936); `TariffRows.RowsInBlocks` has
  the truncated fee. When the full blocks already reach the pay time nothing is added for the rest.
- A longer stay never costs less under `FeeMonotone.ParkingLongerNeverCostsLess`, and where all days are 24-hour days of one
  fee under `FeeDayBlocksMonotone.ParkingLongerInBlocks`. `FeeFalls.dfy` shows of each condition what happens without it, at
  stations that meet all the others. For every zone and setting the fee falls exactly when the free-block money the station
  grants is above the zone maximum (`FreeMoneyExactly`); for every zone without free time, exactly when its allowance is not
  harmless (`AllowanceExactly`); for every hourly-to-per-entry allowance but none (`EntryAllowanceExactly`). For every
  24-hour amount it falls beside days of another mode (`MixedDaysFall`), and beside 24-hour days of another fee
  (`DifferentFeesFall`). All 24-hour fees of a stay are dropped when its last day is not a 24-hour day (db.cpp:7403;
  `BlockChargesDropped`).
- Free time can be granted although it was granted before: over every run `FeeFreeTime.FreeAgainExactly` says exactly when,
  and `FeeFreeTime.FreeTwice` has a stay with two of them in either mode.
- With rounding on, the rounded number of units is divided by 100 once more (db.cpp:7414): a fee of 10.00 becomes 0.10
  (`FeeStays.RoundMeaning`).
- Error codes of the fee engine are returned as amounts (db.cpp:6824, 6837, 6997); `FeePeriods.Amount` keeps that.
- A stay is split between two tariff periods only if both cover part of it at once: the second turn of the loop clears the
  flag that the first set (db.cpp:6679-6697), so periods that only adjoin never split a stay. The second flag is read
  unset when the first period covers the stay; its leftover value is the field `stale`, and `FeePeriods.StaleFlagSplits`
  says what it charges.
- Settlement conserves money under any fees, error codes included, but for three kinds of event, and
  `Settlement.EventConservesExactly` proves that there is no fourth. A redemption ticket is put aside, for want of a plate or
  card, while an amount is already due: in `Settlement.DeferredTicketLosesMoney` the central system sends an entry, a ticket
  is put aside, two plates ask for the payment, the first payment finds no plate to store, a plate is read and rejected, and
  the second payment stores 10.00 paid and 5.00 redeemed for a fee of 10.00. The minutes of a ticket scanned at an exit
  without an entry are refused by the tariff, and the error code is redeemed as an amount. Or a complimentary ticket is
  scanned while an error code stands as redeemed: it closes the exit unpaid, but not as complimentary.
- Special cards are never recognised: neither reader passes the card number on, so the database is asked for the empty one
  (operation.cpp:514, 2403, 3469; `Settlement.SpecialCardNotRecognised`).
- Parked minutes are not counted again when an entry time arrives (operation.cpp:3304-3314), so a time ticket can redeem
  more than the fee, which is cut only when the record is saved, or, after an exit first seen without entry, the whole fee
  for any number of minutes: `Redemption.WithinFeeExactly`, `Redemption.WithinItsMinutesExactly` and
  `Redemption.StaleMinutesRedeemTooMuch`.
- Uploading deletes local exits by plate and exit time, so of two exits that share both a failure can lose one:
  `ExitStore.RoundKeepsRowsExactly` and `ExitStore.RowsKeptExactly` say exactly when rows are safe. The key itself is
  never lost.
- Tariff code 0 and the negative multiples of 8 fill the slot of code 8 (db.cpp:6393-6400; `TariffTable.CodesAndSlots`).
- A loop pin that cannot be read makes the presence flag miss a change; `LoopSensor.FaithfulRunExactly` says exactly when,
  over every interleaving of the threads.
- The digit scan compares with the digit rate of the best whole match instead of its own best
  (operation.cpp:2520-2523). It finds the best digits in whatever order the records come exactly when the records with the
  greatest whole rate have them and no digit agrees where no whole plate does (`PlateMatch.DigitScanInAnyOrder`);
  `PlateMatch.DigitScanExactly` is the condition for one list, `PlateMatch.DigitScanMissesBest` two plates that fail it.

## Model

| member | source | states |
|---|---|---|
| Calendar.DateOfDayNumber | ce_time.cpp:77-100 | the reassignments of the conversion end in the one valid date that has the day number, from 0001-01-01 on |
| Calendar.DateRoundTrip | ce_time.cpp:77-100 | converting a valid date to its day number and back gives the date |
| Calendar.DayNumberRoundTrip | ce_time.cpp:27-38 | converting a day number to a date and back gives the number; the date is valid |
| Calendar.NextDateNextNumber | ce_time.cpp:27-38 | consecutive dates have consecutive day numbers across month ends, leap years and centuries |
| Calendar.EveryNumberHasDate | ce_time.cpp:27-38 | no day number is skipped: each from 0001-01-01 on belongs to a valid date |
| Calendar.WeekdayOf | ce_time.cpp:504-523 | the table lookup after Zeller's sum gives the day number modulo 7, plus 1, for every valid date |
| Calendar.ZellerCongruence | ce_time.cpp:516-521 | Zeller's sum and the day number differ by a constant modulo 7 |
| Calendar.WeekdaysCycle | ce_time.cpp:504-523 | weekday codes step 1 to 7 and back to 1 over consecutive dates, for all time |
| Tariff.GetDayType | db.cpp:6521-6585 | the holiday and holiday-eve loops pick the weekday, 7 or 8 exactly as the calendar and the list say |
| TariffDays.DayTypeOfDate | db.cpp:6521-6585 | the slot of every valid date and list of holidays: its weekday; 8 on a holiday, or 7 where eves have a slot, which is 8 from Monday to Friday before a holiday |
| TariffDays.KnownWeekdays | ce_time.cpp:504-523 | 1970-01-01 is day 0 and a Thursday, 2025-01-01 day 20089 and a Wednesday |
| TariffDays.LoadsOrFails | db.cpp:6817-6917 | a day has a table if and only if the three rows are there and the first two close; which code it fails with otherwise |
| TariffDays.ZoneOfMinute | db.cpp:6838-6977 | the zone that charges any minute of a day: the row's zone begun last, up to the next start, the next day's first start or midnight; before the first start the last zone of the day before |
| Tariff.MaxZoneFrom | db.cpp:6826-6835 | the zone found is the first whose end is the row's first start, and none is found only if there is none |
| Tariff.AssembledShape | db.cpp:6838-6926 | a day assembled from three rows has increasing zone bounds that cover the day and end in the next one |
| Tariff.ContextShape | db.cpp:6815-6947 | rows of the right shape give every day, for every list of holidays, a table of that shape, all ending at the same minute of the next day |
| FeeEngine.ZoneAtFrom | db.cpp:6967-6977 | the lookup ends inside the table, at a zone that starts not after the clock and ends after it |
| FeeEngine.LookupFindsTheZone | db.cpp:6967-6977 | at the top of every pass exactly one zone contains the clock and it is the one found, so no index is stale |
| FeeEngine.FreeBounds | db.cpp:7057-7243 | free blocks move the clock forward, with cutoff not past the zone, add at most their amounts, and stop exactly at the pay time |
| FeeEngine.BlocksBounds | db.cpp:7246-7273 | charge blocks move the clock forward by less than a day past the zone, never lower the fee, and leave the zone early only at the pay time |
| FeeEngine.CloseZoneReady | db.cpp:7354-7386 | closing a zone and perhaps a day leaves the clock inside the next day's table |
| FeeEngine.PassAdvances | db.cpp:6810-7387 | every pass leaves the loop's invariant, moves the clock forward although cutoff pulls it back, stays before the pay time and closes at most one day: the loop ends |
| FeeEngine.PassNeverFaults | db.cpp:6996-7045 | with rate types 1 and 2 and positive blocks no pass ends in an error code |
| ZoneCharge.BlocksBegun | db.cpp:7246-7273 | no block is charged exactly when the zone has ended |
| ZoneCharge.UnlimitedZone | db.cpp:7246-7273 | without a zone maximum the block loop ends at the clock and fee of the closed form |
| ZoneCharge.ZoneClosedForm | db.cpp:7246-7273 | after the zone limits the block loop charges start fee plus rate times blocks begun, at least one; leaving at the maximum changes nothing |
| ZoneCharge.FreeTimeIsSteps | db.cpp:7057-7243 | the nested free-time branches and their jumps are a walk of at most three blocks; when it stops and when it counts as used up |
| FeeUniform.BlocksAdd | db.cpp:7246-7273 | the blocks charged in one zone and those left after it are those of the whole stay |
| FeeUniform.RunUniform | db.cpp:6810-7387 | from any state of the walk a uniform tariff adds the blocks of the time that is left |
| FeeUniform.UniformStayExact | db.cpp:6734-7416 | with one hourly rate a stay costs the rate for each block begun, whatever zones and days it crosses |
| FeeLimits.ZoneStayExact | db.cpp:7246-7400 | a stay inside one hourly zone costs the zone minimum, its maximum or the rate for each block begun, whichever applies, and then the day's minimum, maximum or that |
| FeeLimits.UniformDaysExact | db.cpp:6810-7400 | a stay of any length on one hourly rate costs, day by day, the blocks that begin in the day, no less than the day's minimum and no more than its maximum |
| FeeStays.GraceExactly | db.cpp:7013-7037 | a stay is free by grace if and only if it is no longer than the grace of the zone it is entered in and has no full 24-hour block; any other stay costs what it does without grace |
| FeeStays.EntryPassExact | db.cpp:7298-7363 | what entering a per-entry zone costs, when it is free by allowance or for a motorcycle, where the clock leaves it, and that a motorcycle is looked up once |
| FeeStays.EntryStayExact | db.cpp:7298-7400 | a stay inside a per-entry zone, or within the allowance after it, costs the entry rate under the zone's and the day's limits |
| FeeStays.AllowanceStops | db.cpp:7047-7055 | a stay already charged that ends within the allowance of the hourly zone it comes into costs no more |
| FeeStays.RoundMeaning | db.cpp:6656-6664 | rounding up, down and to the nearest whole unit, halves up |
| FeeStays.Uncharged | db.cpp:6990-7046 | a zone of another rate type, or hourly without a block, ends the calculation with code -3 |
| FeeStays.FeeOfSeconds | db.cpp:6790-6810 | the fee between two times in seconds is the rounded charge of the minutes begun; nothing if the stay ends in an earlier minute than it began |
| FeeMonotone.PassLoadedInStep | db.cpp:6967-7386 | one pass towards an earlier and one towards a later pay time from related states stay related, or the earlier one stops no dearer |
| FeeMonotone.RunGrows | db.cpp:6810-7410 | what has been charged when a pass starts is never taken back by the rest of the run |
| FeeMonotone.RunInStep | db.cpp:6810-7410 | of two runs in step the one with the later pay time charges at least as much |
| FeeMonotone.ParkingLongerNeverCostsLess | db.cpp:6734-7424 | for a fixed entry the fee is non-decreasing in the pay time, to the second and after rounding, and is never an error code, for tariffs without 24-hour days whose granted free money is within the zone maxima and whose days have zone cutoff with no entry allowance to undo it, or harmless allowances |
| FeeDayCap.PassWithinDay | db.cpp:7354-7383 | one pass closes at most one day and adds at most its maximum |
| FeeDayCap.RunCapped | db.cpp:6810-7400 | the rest of a run adds at most the maxima of the days that are left, early ends included |
| FeeDayCap.StayWithinDayCaps | db.cpp:7354-7400 | the charge before rounding is at most the sum of the whole-day maxima from entry to effective pay time |
| FeeDayBlocks.DayBlockPass | db.cpp:6949-6964 | a pass with a full day left charges one 24-hour fee, jumps a day and charges nothing else |
| FeeDayBlocks.RunMirrors | db.cpp:6965-7410 | after the full blocks the walk charges what the zones alone would, up to one more fee |
| FeeDayBlocks.DayBlocksExact | db.cpp:7403-7410 | 24-hour mode charges the fee times the full blocks plus the smaller of the fee and the zones' charge for the rest, so between fee times blocks and one more |
| FeeDayBlocksMonotone.ParkingLongerInBlocks | db.cpp:6949-7410 | when every day is a 24-hour day of one fee the fee is non-decreasing in the pay time too |
| FeeDayBlocksMonotone.FirstBlock | db.cpp:6949-7410 | within 24 hours a 24-hour day charges what its zones alone would, up to the fee, so it falls where they do below it |
| FeeFreeTime.PassLeavesFreeExactly | db.cpp:7057-7386 | after a pass free time can still be granted if and only if, told before the pass, its zone has no free money, no rate that is reached and no minimum, the day no minimum if it is left, and the free time does not outlast the zone or have three blocks |
| FeeFreeTime.FreeAgainExactly | db.cpp:6810-7386 | over every run a zone with free blocks is granted them, for the first or another time, if and only if the mode is 0 or every pass before left it so |
| FeeFreeTime.FreeTwice | db.cpp:7057-7063 | for every rate a stay of 130 minutes that has both free times, in mode 0 and in mode 1 |
| FeeFalls.FreeMoneyExactly | db.cpp:7065-7363 | for every hourly zone and setting, a day of that zone among free days never charges less for longer if and only if the granted free-block money is within the zone maximum |
| FeeFalls.AllowanceExactly | db.cpp:7246-7273 | for every hourly zone without zone cutoff and free time, before dear days, never less for longer if and only if its allowance is at most a block, or its blocks are minutes or free, or the maximum is none, reached at once or out of reach |
| FeeFalls.EntryAllowanceExactly | db.cpp:7275-7383 | for every hourly-to-per-entry allowance, at a station with an hourly zone before a per-entry one, never less for longer if and only if it is 0 |
| FeeFalls.MixedDaysFall | db.cpp:7403-7410 | for every 24-hour amount a station with one such day among others whose fee falls, though its zones and rows meet every other condition |
| FeeFalls.BlockChargesDropped | db.cpp:7403-7410 | for every amount and rate, 24 hours cost the 24-hour fee and a minute more the rate of the next day instead |
| FeeFalls.DifferentFeesFall | db.cpp:6949-7410 | for any two amounts that differ in whole units a station of 24-hour days with both whose fee falls |
| TariffRows.LoadedFromRows | db.cpp:6902-6946 | what the table of a day takes from its row: mode, cutoff, maximum, truncated 24-hour fee |
| TariffRows.LongerStayOnRows | db.cpp:6734-7424 | the monotone fee, from conditions on the eight configured rows only |
| TariffRows.RowsCapped | db.cpp:6902-6946 | rows with positive maxima outside 24-hour mode satisfy the conditions of the day cap |
| TariffRows.RowsInBlocks | db.cpp:6932-6938 | rows in 24-hour mode with one fee satisfy those of the exact charge, for the fee without its fraction |
| TariffRows.LongerStayInBlocks | db.cpp:6734-7424 | the monotone fee of 24-hour rows, from conditions on the rows |
| FeeLoop.DayTables.FillZones | db.cpp:6838-6901 | zone 0 is the last zone of the day before and zones 1 on are the row's, each with its start |
| FeeLoop.DayTables.Store | db.cpp:6838-6946 | the arrays and limits filled from three rows are the assembled table of the day |
| FeeLoop.DayTables.FindZone | db.cpp:6967-6977 | the search loop finds the zone of the specification within the arrays |
| FeeLoop.FindMaxZone | db.cpp:6867-6875 | the loop with its early exit finds the first zone that closes the row |
| FeeLoop.DayRows | db.cpp:6817-6917 | the rows of three days, or the error code of the first that is empty or does not close, in the source's order |
| FeeLoop.FeeWalk.LoadTables | db.cpp:6815-6947 | loading a day sets its table and clears its fee, and changes nothing else |
| FeeLoop.FeeWalk.ChargeBlocks | db.cpp:7246-7273 | the block loop on the walk's clock |
| FeeLoop.FeeWalk.EndDay | db.cpp:7365-7383 | the day is closed with its limits exactly when the clock has left it |
| FeeLoop.FeeWalk.EndZone | db.cpp:7354-7386 | zone limits, then day limits, then the test for the pay time |
| FeeLoop.FeeWalk.FreeBlocks | db.cpp:7065-7243 | the nested free-time branches with their jumps give the clock, money and use of the specification's |
| FeeLoop.FeeWalk.FreeTime | db.cpp:7057-7063 | when free time applies: mode, nothing charged yet, not used up |
| FeeLoop.FeeWalk.PullBack | db.cpp:7275-7293 | zone cutoff sets the clock back to the zone end unless the hourly-to-per-entry allowance keeps it |
| FeeLoop.FeeWalk.BlocksAndCutoff | db.cpp:7246-7293 | the charge blocks from the end of the free time and the cutoff after them |
| FeeLoop.FeeWalk.HourlyZone | db.cpp:7041-7295 | an hourly zone from allowance to cutoff |
| FeeLoop.FeeWalk.ChargeEntry | db.cpp:7298-7326 | the rate of a per-entry zone: the motorcycle lookup once, and nothing within the allowance |
| FeeLoop.FeeWalk.PerEntryZone | db.cpp:7298-7349 | a per-entry zone: its rate, and the clock after it |
| FeeLoop.FeeWalk.TakeDayBlock | db.cpp:6957-6964 | one 24-hour block |
| FeeLoop.FeeWalk.EnterZone | db.cpp:7015-7037 | grace counts once, in the first zone, and ends the walk free of charge |
| FeeLoop.FeeWalk.OnePass | db.cpp:6810-7386 | one turn of the outer loop is one pass of the specification, whichever way it ends |
| FeeLoop.FeeWalk.Settle | db.cpp:7389-7410 | the open day's fee and the 24-hour blocks at the end |
| FeeLoop.FeeWalk.Walk | db.cpp:6810-7410 | the outer loop ends and gives the charge of the run of passes |
| FeeLoop.PayMinute | db.cpp:6794-6803 | the minutes charged are those of the stay in seconds rounded up: not fewer seconds than the stay has, and less than a minute more |
| FeeLoop.CalFeeRAM2GR | db.cpp:6734-7424 | for every tariff of the right shape, every entry and every pay time the whole calculation ends with the fee or error code of the specification, to which the theorems above apply |
| FeePeriods.ChoosePlan | db.cpp:6667-6725 | the two flags and their loop choose one period, both, or none exactly as the periods lie |
| FeePeriods.CalFeeRAM2G | db.cpp:6667-6732 | the fee over one period, or the sum over the two parts of a split stay past its grace, with error codes as amounts |
| FeePeriods.SplitExactly | db.cpp:6679-6697 | a stay is split if and only if it is entered in both periods, leaves the first and is paid in the second; adjoining periods never split one |
| FeePeriods.PeriodCharges | db.cpp:6679-6722 | from the times alone: inside the first period its tariff charges the stay, whatever the other period is; so it does a stay that outlasts it without having been entered inside the second; the second's charges a stay that has nothing to do with the first |
| FeePeriods.SplitCharges | db.cpp:6699-6715 | a split stay costs the first tariff to the end of its period and the second from the start of its own, and nothing within the grace of a split stay |
| FeePeriods.SplitGrace | db.cpp:6699-6705 | the grace of a split stay is that of the first zone of the type's Monday row |
| FeePeriods.StaleFlagSplits | db.cpp:6672-6720 | the flag that is never initialised splits a stay inside the first period if it holds true, and changes no other |
| FeePeriods.RefusedStay | db.cpp:6688-6691 | a stay that outlasts the second period, and is not inside the first, gives the error code |
| FeePeriods.StayFeeMonotone | db.cpp:6667-6732 | within one period the fee over periods is non-negative and non-decreasing in the pay time |
| Settlement.SpecialCardNotRecognised | operation.cpp:2401-2425 | whatever the numbers of the special cards, a number read while a payment is waited for only asks for it again |
| Settlement.StepKeeps | operation.cpp:2250-3470 | every event keeps the amount to pay in step with the record or the exit exempt, and every stored record conserving, but for the three kinds of event named |
| Settlement.RunConserves | operation.cpp:2250-3470 | fee + owed = paid + rebate + redeemed in every stored record that is not exempt, for every order of plates, cards, tickets, entries and payments, under any fees and rebates |
| Settlement.NoRebateGranted | operation.cpp:2250-3470 | no handler grants a rebate |
| Settlement.DeferredTicketLosesMoney | operation.cpp:3083-3113 | seven events from a cleared desk, in an order the payment status allows, for any plate, ticket and card, that store 10.00 paid and 5.00 redeemed for a fee of 10.00 |
| Settlement.DeferredDebt | operation.cpp:3083-3113 | from every settled desk a ticket of another worth put aside while an amount is due can be continued to a record that does not conserve |
| Settlement.RefusedMinutes | operation.cpp:2899-2904 | so can a ticket whose minutes before the exit the tariff refuses, redeemed without an entry |
| Settlement.WaivedDebt | operation.cpp:3239-3247 | a complimentary ticket that finds an error code redeemed and an amount due stores a record that does not conserve |
| Settlement.EventConservesExactly | operation.cpp:2250-3470 | of a settled desk, an event of any kind leaves every continuation conserving if and only if it is none of these three, each told from the record, the ticket and the fee of its minutes before the event |
| Settlement.ClearedIsSettled | operation.cpp:570-660 | the cleared record is one the theorems start from |
| Outcomes.RedemptionOutcome | operation.cpp:3083-3135 | a redemption ticket on an identified exit closes it, with one record of the fee, nothing paid and the worth redeemed, if and only if fee + owed - rebate - worth <= 0; otherwise exactly that is to pay |
| Outcomes.AsideOutcome | operation.cpp:3083-3135 | before a plate is known a redemption ticket is kept and nothing stored; what is to pay changes only once a card is known |
| Outcomes.SecondScanOutcome | operation.cpp:2953-2976 | a ticket scanned once an amount is redeemed closes an exit with a fee and nothing left, and otherwise shows what is left |
| Outcomes.ComplimentaryOutcome | operation.cpp:3137-3186 | a complimentary ticket waits for a plate if it needs a card, and otherwise closes the exit free |
| Outcomes.RefusedTicketOutcome | operation.cpp:3190-3237 | a refused ticket changes nothing but the amount shown |
| Outcomes.StayFeeOutcome | operation.cpp:2632-2663 | which rate and which stretch of the stay are charged under each kind of season |
| Outcomes.EntryOutcome | operation.cpp:2632-2728 | a new number with an entry is charged its stay, and closed free by a ticket worth nothing, closed with nothing left to pay, or left waiting for exactly what is left |
| Outcomes.FreeSeasonOutcome | operation.cpp:2592-2603 | a season that is not charged, or has no entry, closes the exit now, with no fee, nothing paid and nothing due |
| Outcomes.WholeSeasonOutcome | operation.cpp:2665-2673 | a season of all hours that is charged keeps the fee on record with nothing paid |
| Outcomes.NoEntryOutcome | operation.cpp:2605-2631 | without an entry: closed free by a ticket, left to the intercom, or charged automatically and settled |
| Outcomes.NewExits | operation.cpp:2351-2478 | which numbers are handled as a new exit: not while a payment is waited for, not the exit at the desk, not the one just closed and paid |
| Outcomes.WaitingOutcome | operation.cpp:2361-2425 | while a payment is waited for, or a refused one to be repeated with another card, a number only has it asked for again |
| Outcomes.IgnoredNumber | operation.cpp:2351-2478 | the refused card, the exit just closed and paid and the number at the desk change nothing; a rejected number is only noted |
| Outcomes.ReceivedOutcome | operation.cpp:3304-3333 | an entry time recharges the exit, which waits for a card with exactly what is left, or is closed |
| Outcomes.PaidOutcome | operation.cpp:2300-2322 | a payment closes a known exit with the amount that was to pay and is kept as the last one's |
| Outcomes.AfterRefusal | operation.cpp:2369-2380 | after a refused payment the same card is turned away and another number waits for a payment again |
| Outcomes.NumberRead | operation.cpp:2246-2290 | which plates are handled at all; a card always is, once it is noted |
| Outcomes.ClearedOutcome | operation.cpp:570-655 | clearing forgets the exit, and neither the records nor the last exit |
| Outcomes.MinutesWorth | operation.cpp:2878-2935 | what redeemed minutes are worth in each case, in fees of the ticket's minutes, of the rest and of the stay |
| ExitDesk.ExitDesk.RedeemTime2Amt | operation.cpp:2878-2939 | redeemed time as money in all five branches |
| ExitDesk.ExitDesk.CheckIUorCardStatus | operation.cpp:2351-2453 | a number is turned away, taken as a card to pay with, let out free, or handled as an exit, by the payment status |
| ExitDesk.ExitDesk.TicketScan | operation.cpp:2941-3237 | a ticket scanned at any time: already redeemed, refused, complimentary, put aside or settled |
| ExitDesk.ExitDesk.Handle | operation.cpp:2250-3470 | every event on the shared object is the event of the specification |
| ExitDesk.ExitDesk.HandleAll | operation.cpp:2250-3470 | any run of events on the shared object stores only conserving records |
| Redemption.WithinFeeExactly | operation.cpp:2878-2939 | with an entry, redeemed time is worth between nothing and the fee under all monotone fees if and only if its minutes reach the stored parked minutes or end no later than the stay |
| Redemption.WithinItsMinutesExactly | operation.cpp:2878-2939 | it is worth at most the fee of its own minutes under all monotone fees if and only if these are less than the stored parked minutes or reach the end of the stay |
| Redemption.RunKeepsStay | operation.cpp:2456-3333 | a charged stay keeps its fee and parked minutes over every run of events without a new entry time, a season or a cleared desk |
| Redemption.RedeemedWithinFee | operation.cpp:2878-2939 | with the fee engine's fees, within one tariff period, redeemed time is worth between nothing and the whole fee for every record whose ticket fits, stale minutes included |
| Redemption.ScannedTicketWithinFee | operation.cpp:3083-3113 | so of a ticket scanned after any such run from a charged stay |
| Redemption.WaitingTicketWithinFee | operation.cpp:2685-2688 | at the exit a waiting time ticket takes off at most the fee, and what is owed stays to pay |
| Redemption.StaleMinutesRedeemTooMuch | operation.cpp:3304-3314 | for any plate, ticket and time: after a charged stay of 100 minutes a new entry time 20 minutes ago is charged 5.00, of which a ticket of 50 minutes redeems 10.00 |
| Redemption.EngineRefusesExactly | db.cpp:6679-6697 | with the fee engine's fees, a fee is negative if and only if the stay is not covered by the first period, entered within the second and paid at its end or later |
| Redemption.EngineDeskConserves | operation.cpp:2250-3470 | at a desk with the engine's fees every order of events conserves money, refused stays included, unless a ticket is put aside while an amount is due, minutes that no period can charge are redeemed without an entry, or a complimentary ticket meets a refused redemption |
| TariffTable.CodesAndSlots | db.cpp:6393-6400 | codes from 1 and slots 1 to 8 of each type correspond one to one; code 0 and its negative multiples of 8 share the slot of code 8 |
| TariffTable.SlotOfCode | db.cpp:6393-6400 | which codes have a slot, and which one, by the division and remainder the source computes |
| TariffTable.NumeralReadBack | db.cpp:6402 | a code is kept as text with its sign, without leading zeros, and that text reads back as the code |
| TariffTable.StoiMeaning | db.cpp:6342-6350 | which number a code text is: the digits after spaces and a sign, whatever follows them, if they fit 32 bits |
| TariffTable.CleanTimes | db.cpp:6315-6338 | a missing zone time is stored as an empty one, and all else as it is |
| TariffTable.TariffMemory.WriteTariff2RAM | db.cpp:6384-6429 | one slot of the table is replaced and no other |
| TariffTable.TariffMemory.LoadRow | db.cpp:6342-6354 | a row fills the slots of its codes in order, up to the first that cannot be read, ignoring what follows the last comma |
| TariffTable.TariffMemory.LoadRows | db.cpp:6312-6356 | all rows in order; success if and only if every code can be read |
| TariffTable.TariffMemory.LoadTariff | db.cpp:6284-6382 | the load with its one retry: when it fails, when there is no data, and the table it leaves in each case |
| TariffTable.TableHoldsLastRows | db.cpp:6312-6356 | after a successful load every slot holds the last row that lists its code, and all others are unchanged |
| TariffTable.RowListsItsCodes | db.cpp:6342-6350 | the codes a row was written with, each followed by a comma, are the codes read from it |
| ExitStore.Without | db.cpp:5788-5792 | deleting by key removes the rows of the key and no other |
| ExitStore.WithoutBoth | db.cpp:5788-5792 | the rows left keep their number and order |
| ExitStore.SaveOutcome | db.cpp:6111-6240 | a save writes the central table if it can be reached and the local one otherwise, never both, and succeeds if and only if that insert is reported |
| ExitStore.ForwardOutcome | db.cpp:5634-5681 | a row is deleted only once its insert was reported; one that took effect unreported stays in both tables |
| ExitStore.RoundStops | db.cpp:5613-5655 | a row that cannot be read ends the round after those before it |
| ExitStore.Tables.InsertExitTrans | db.cpp:6111-6240 | which table a save writes and what it reports, for every state of the two connections |
| ExitStore.Tables.DeleteLocalTrans | db.cpp:5771-5835 | the local delete and its report |
| ExitStore.Tables.MoveOfflineTransToCentral | db.cpp:5522-5694 | an upload round in the order of the selection, ended by an unreadable row |
| ExitStore.WorkerDoesRound | db.cpp:5522-5694 | the statements of a worker that is not interrupted leave exactly the tables of a round, and the worker idle |
| ExitStore.RoundDrains | db.cpp:5634-5681 | a round without failures sends every row once and leaves the local table empty |
| ExitStore.RoundKeepsRowsExactly | db.cpp:5634-5681 | a round keeps every row under all failures if and only if no two different rows share a key |
| ExitStore.ApplyKeepsKeys | db.cpp:5522-5694 | every SQL statement of any worker keeps each saved key in a table and what is about to be deleted in the central one |
| ExitStore.NoSavedKeyLost | db.cpp:6111-6240 | over every interleaving of saves and any number of upload workers, with any failures, no key reported saved is lost, duplicates included |
| ExitStore.NoSavedRowLost | db.cpp:5522-5694 | nor any whole row, when keys tell transactions apart |
| ExitStore.FromEmpty | db.cpp:5522-5694 | both, of every run from empty tables |
| ExitStore.LosingRun | db.cpp:5771-5807 | a run that loses a saved row, for any two transactions that share a key |
| ExitStore.RowsKeptExactly | db.cpp:5771-5807 | no run over some transactions loses one if and only if no two of them share a key |
| SeasonSync.SeasonTables.WriteSeason2Local | db.cpp:672-784 | a row is updated if there is one and inserted if not; when it reports success |
| SeasonSync.SeasonTables.FetchSeason | db.cpp:625-652 | a season is marked only after it was written, and counted only if the mark was reported |
| SeasonSync.SeasonTables.DownloadSeason | db.cpp:548-670 | one call and its count, for every failure |
| SeasonSync.WriteRowOnly | db.cpp:697-765 | writing a season touches no other season's rows and leaves exactly one with the values |
| SeasonSync.FetchOutcome | db.cpp:625-652 | when a season is written, when marked and when counted, for every failure |
| SeasonSync.CountIsMarked | db.cpp:548-670 | the count of a call is never more than the seasons it marked, and is their number if no mark took effect unreported |
| SeasonSync.EveryRunKeeps | db.cpp:548-670 | over every run of calls with failures and central edits between them, a season this station marked has exactly one local row with the downloaded values |
| SeasonSync.CleanCall | db.cpp:548-670 | a call without failures takes ten of the pending seasons, or all, and says how many |
| SeasonSync.DrainsInCalls | db.cpp:584-660 | n pending seasons are gone after n / 10 such calls rounded up, and no sooner |
| SeasonSync.DrainedIsCopied | db.cpp:548-784 | then every central season has exactly one local row, with the central values |
| LoopSensor.Sampler.Turn | dio.cpp:138-174 | the six cases send exactly the change of presence that both samples show |
| LoopSensor.Sampler.Monitor | dio.cpp:121-360 | the polling loop sends the edges of its samples in order |
| LoopSensor.EventQueue.PopFront | event_manager.cpp:84-85 | the oldest event is taken and the rest keep their order |
| LoopSensor.Consumer.ProcessEventsFromQueue | event_manager.cpp:74-109 | the queue is emptied in order and the flag ends as its replay |
| LoopSensor.EventsAreEdges | event_manager.cpp:57-109 | in every interleaving of the threads the loop events handled, taken and waiting are the edges of all samples, each once, and the flag is what the handled ones say |
| LoopSensor.EdgeMeaning | dio.cpp:138-174 | an arrival on two empty loops is ON, leaving both empty is OFF, and nothing else is an event |
| LoopSensor.PresenceIsFaithful | event_handler.cpp:97-110 | with 0/1 samples ON and OFF alternate starting with ON, and replaying what is still to come gives the presence of the last sample |
| LoopSensor.FaithfulExactly | dio.cpp:127-174 | with unreadable samples the flag is right after each if and only if every change falls between two readable samples |
| LoopSensor.FaithfulRunExactly | event_manager.cpp:57-109 | the same over every interleaving of the threads: replaying what is still to come gives the last sample's presence throughout if and only if every change of the run is so read |
| PlateMatch.GetMaxSimilarity | operation.cpp:3481-3544 | the nested loops give the rounded percentage of the best fit of the shorter plate |
| PlateMatch.SimilaritySymmetric | operation.cpp:3481-3544 | it does not matter which plate was read at the entry |
| PlateMatch.SimilarityIsBestFit | operation.cpp:3481-3544 | the similarity is the nearest whole percentage of the shorter plate's positions that agree at an offset where most do; 0 with an empty plate |
| PlateMatch.SimilarityMeaning | operation.cpp:3532-3543 | at most 100, and below 200 characters 100 if and only if the shorter plate occurs in the longer; in general if and only if at most one character in 200 differs |
| PlateMatch.GetDigitFromString | operation.cpp:3546-3559 | the digits of a plate in order |
| PlateMatch.DigitsInOrder | operation.cpp:3546-3559 | the digits of two texts in a row are those of the one and then those of the other |
| PlateMatch.ScanEntries | operation.cpp:2495-2532 | the scan loop with both accumulators, and that the first of them ends right |
| PlateMatch.WholeScanIsFirstBest | operation.cpp:2500-2516 | the whole-plate scan gives the first record with the lexicographically greatest pair of rates, or the blank record if all are (0, 0) |
| PlateMatch.DigitScanInAnyOrder | operation.cpp:2518-2532 | the digit scan finds the greatest digit rate in every order of the records if and only if the records with the greatest whole rate have it and no digit rate is above 0 with all whole rates at 0 |
| PlateMatch.ScanTakes | operation.cpp:2518-2532 | the record the digit scan ends with: of the last one taken regardless and the tied ones after it, the first with the greatest whole rate |
| PlateMatch.DigitScanExactly | operation.cpp:2518-2532 | for one list in its order the greatest digit rate is found if and only if that record has it |
| PlateMatch.DigitScanMissesBest | operation.cpp:2518-2532 | two records on which the digit scan keeps a digit rate of 0 beside one of 100 |
| UdpMessage.Find | parsedata.h:73-79 | the place found is the first, and none is found only if there is none |
| UdpMessage.ParseData.Parse | parsedata.h:69-111 | the loop that shortens its text gives the fields of the message and their number |
| UdpMessage.ParsedAreClean | parsedata.h:69-111 | no parsed field holds a separator or an end character, whatever arrives |
| UdpMessage.RoundTripExactly | parsedata.h:69-111 | parsing a printed list gives that list, empty fields included, if and only if no field holds a separator or an end character |
| UdpMessage.ParsePrintParse | parsedata.h:69-111 | printing the fields of any text and parsing again changes nothing |
| UdpMessage.SendMsg2Server | operation.cpp:1463-1472 | a message to the server is the printed list of station, number, command and the pieces of the data |
| UdpMessage.ServerReads | parsedata.h:69-111 | the server reads back exactly those |

## Left out

- ODBC, SQL text, sockets, GPIO files, displays, barrier, readers and logging: each call is a parameter that may fail.
- Floating point: amounts are whole hundredths, rates are not rounded in binary, the percentage of a plate match is exact, the time of day is an integer; time zones are one fixed offset in whole hours without daylight saving.
- Reading tariff times and numbers from text inside the fee engine: rows hold numbers, and a row that is not text of numbers is not modelled.
- Tariff rows with nine zones: the source's arrays are one entry short for them, so the shape of rows excludes them; so are rows whose zone starts do not increase, or whose day types differ in first start or day cutoff.
- FeeMonotone.ParkingLongerNeverCostsLess: claims nothing across two tariff periods, whose grace slot ignores the tariff type (db.cpp:6701).
- FeeFalls.AllowanceExactly: exact for stations without free time. With it, an allowance longer than a block on a zone whose maximum is reached by the first block, or only with free-block money, is outside the conditions and no fall is shown.
- FeeFalls.MixedDaysFall: that some station of the kind falls; not every mix of days does.
- FeeDayBlocksMonotone.ParkingLongerInBlocks: one 24-hour fee for all days, and zones that never fall alone; FeeDayBlocksMonotone.FirstBlock carries a fall of the zones over, below the 24-hour fee.
- Redemption.RedeemedWithinFee: exits without an entry, or split between two periods, are not covered; for those the redeemed amount is cut only when the record is saved.
- Redemption.WaitingTicketWithinFee: exits without a season; a season charges another stretch than the stay the ticket counts from.
- Settlement.RunConserves: records of exempt exits (complimentary tickets, seasons) are excluded, because the paid amount is forced to zero for them by design. No special card has the empty number. Closings by a manually opened barrier (operation.cpp:340-350, 2065-2067) are not events of the model. The flag for a payment through another account is never set, so its refund branches are not modelled, nor the payment states that are never set; the only caller of the payment handler passes no amount (operation.cpp:3411).
- Settlement.EventConservesExactly: exact for the rebate of zero that every exit has; with a rebate the three kinds are only said to be enough to avoid.
- Redemption.EngineDeskConserves: the engine's fees are those of monotone tariffs, for every vehicle type.
- ExitDesk.ExitDesk.Handle: the reader gives no empty card number; messages to displays, barrier and reader are left out.
- PlateMatch.ScanEntries: the threshold comparison after the two scans is not modelled.
- PlateMatch.GetMaxSimilarity: the percentage is exact, where the source rounds a floating-point quotient.
- ExitStore.NoSavedRowLost: a row stands for the columns that the upload carries; the upload drops batch number, fee source, plate image number and entry station, and a direct save caps the parked time at 32000 minutes. Movement tables and housekeeping are not modelled.
- The upload of entry transactions: the same loop over another table, whose cache of broadcast entries is deleted by plate alone (db.cpp:258).
- SeasonSync.EveryRunKeeps: the central table has one season for each number; calls do not overlap, central edits come between calls, and local rows are not cleared.
- TariffTable.TariffMemory.LoadTariff: codes above 2400, and negative ones that are no multiple of 8, would be written outside the table; the source does not check them, which is undefined behaviour, so they are required away. Columns of a row are texts that are carried over, their conversion is not modelled.
- LoopSensor.PresenceIsFaithful: what the handlers do on a vehicle's arrival or departure, and stopping the event thread with events waiting.
- How a season's state is found, blacklist tables, entry handling, parameter, message and vehicle-type loading, `GetXTariff`, `CalParkedTime`, `GetSeasonTransType`, hex and string helpers: long but finite tables or easy members. Their answers are parameters.
