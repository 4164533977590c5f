# Hotel inventory and booking lifecycle: a verified model

The project models the room-inventory ledger of a hotel booking service and everything that
drives it or reads it.

* **Ledger.** One row per room type and night counts the total, available, blocked and sold
  rooms. Holding, confirming (from a hold or directly), releasing and cancelling move a
  quantity between counters on every night of `[checkIn, checkOut)`, in a transaction that
  locks the rows, checks and changes working copies in a loop, and saves all of them or none.
  Creating a room type opens sixty nights; changing its total recomputes what is available.
* **Bookings and payments.** A booking starts on hold for ten minutes; choosing a payment
  type, starting a MoMo payment, a payment notice (IPN), a cancellation and the expiry sweep
  move it on and call the ledger.
* **Search.** An aggregate over the same rows decides what is listed; plans are priced for the
  party and grouped by hotel.
* **Calendar.** Dates follow the proleptic Gregorian calendar of section 21.4.1 of ECMA-262.

## How the modules fit together

| module | contents |
|---|---|
| `Outcomes`, `Bounds`, `Sorting` | result shapes, minimum and maximum, `ORDER BY` |
| `Calendar`, `CalendarLaws` | day numbers, date strings, the range loops, the night counts |
| `Ledger` | rows, guards and movements as values: what one operation, one event and one run do |
| `InventoriesService` | the class whose loops with rollback refine the ledger operations |
| `LedgerLaws`, `LedgerHistory` | invariants over runs, algebra, batches of holds, frozen rows, the counters as an account |
| `RangeTransactions` | interleaved transactions with row locks, and their serial equivalent |
| `HotelState` | bookings, payments, table and clock as one state; one function per service call |
| `HotelServices` | the service classes, step by step, proved to do exactly those functions |
| `Claims` | what bookings have a claim to on a night: one sum, for the blocked and for the sold counter |
| `HotelInvariants`, `HotelRuns`, `HotelEffects` | what every step keeps, safety over runs, exact effect of each call |
| `SoldAccount` | when the sold counters are the rooms of the bookings bought, call by call and over runs |
| `CronSweep` | the sweep interleaved with other calls, and how a backlog drains |
| `Pricing`, `Search`, `SearchLaws` | plan prices, the search, and what a listed room promises |

## What the code does that one might not expect

These are modelled as the code has them, and each is stated by a member in the table.

* Neither caller of the confirmation asks for a confirmation from the hold, so confirming
  takes rooms from the available ones while the hold stays blocked: a paid booking counts
  twice (`HotelEffects.PaidNoticeCountsRoomsTwice`), and its blocked rooms are never given
  back (`HotelRuns.UnsweptHoldsStayBlocked`).
* "Sold equals the rooms of confirmed and paid bookings" is not kept by every run: holding two
  rooms and paying at the hotel leaves one sold (`SoldAccount.SoldCanFallShort`). Each call
  keeps it if and only if a condition on the state before the call holds
  (`SoldAccount.StepKeepsSoldIff`): what breaks it is the quantity the payment-type call
  passes, cancelling a booking that was not bought while others' sold rooms cover it, a
  refused cancellation of one that was, and the range endpoint. Notices always keep it
  (`SoldAccount.NoticeKeepsSold`), and a run keeps it throughout if and only if all its calls
  meet their conditions (`SoldAccount.RunKeepsSoldIff`).
* Changing the payment type confirms `is_self_book` rooms, even when the booking stays on hold
  (`HotelEffects.PaymentTypeEffect`), and again each time the choice is repeated
  (`HotelEffects.RepeatedChoices`).
* Cancelling takes rooms out of the sold counter whatever the booking's status was
  (`HotelEffects.CancelEffect`).
* Search subtracts blocked and sold rooms from the available ones, which already exclude them,
  so it can hide rooms that can be held (`SearchLaws.SearchCanHideRooms`,
  `SearchLaws.HoldableCandidateListedIff`).
* Lowering a room type's total below what a night owes freezes that night, and makes the sweep
  fail on it (`LedgerLaws.FrozenUntilRaised`, `HotelRuns.ExpiryFailsIff`). A frozen hold ends
  every sweep that reaches it, so all holds that expired after it wait with it
  (`CronSweep.BehindFrozenWaits`).
* One of the two range functions does not pad the year, so they differ before year 1000
  (`CalendarLaws.RangeVersionsAgreeIff`).
* Asking for the same amenity twice matches nothing (`SearchLaws.AmenityCountIff`).
* Adults-first pricing is the cheapest allocation for every party exactly when there is no base
  slot, or an adult costs at least as much as a child and no fee is negative (`Pricing.AdultsFirstCheapestIff`).

## Assumptions

* One inventory row per room type and date.
* `SELECT ... FOR UPDATE` gives a row to one transaction at a time, until it ends; what a
  transaction reads then is the committed row. While range transactions interleave, rows are
  neither added nor removed.
* Each service call is one atomic step that does not crash half way, except where the
  interleaving modules split it. Changing a room type's total is atomic too, although the code
  takes no lock there.
* Booking and order identifiers are fresh when they are handed out.
* `PaymentService.inventoriesService` is declared but nothing injects it; the model takes it as
  wired to the inventory service.
* A payment notice with a valid signature is an event of the environment: its result code, and
  whether its message speaks of cancelling or expiring.
* The confirmation that the payment-type call does not await takes place within that call.
* Dates are `YYYY-MM-DD` strings. A date number up to 31 is read in every month and rolls over;
  a date column stores only real calendar dates, so a hold with any other is refused. Search
  is modelled on the day such a string rolls over to, where the source compares the date
  column with the string itself; the two are the same for real calendar dates.
* Quantities, prices and fees are whole numbers (cents).
* The server's local zone keeps one offset over the sixty nights a new room type opens, so they
  are consecutive days.
* For the promise of search about holding: each row of a listed room type carries that room
  type's hotel.

## Model

| member | source | states |
|---|---|---|
| Calendar.YearOf | src/inventories/utils/date-range.util.ts:16 | The year of a day is the one whose first day is not after it and whose successor's is, always between 0 and 9999. |
| Calendar.DateOf | src/inventories/utils/date-range.util.ts:17-18 | Month and date lie in the calendar's bounds and, with the year, make the day again. |
| Calendar.AdvanceDay | src/inventories/inventories.service.ts:79 | setUTCDate(getUTCDate() + 1) is the next day, across the end of a month, a year or a leap February. |
| Calendar.NameEachDay | src/inventories/utils/date-range.util.ts:13-22 | The loop ends and names each day from the first up to, not including, the last, once and in order. |
| Calendar.BuildDateRange | src/inventories/inventories.service.ts:63-83 | Succeeds exactly on two readable dates in order, with the right error otherwise; the list is one padded name per night. |
| Calendar.BuildDateRangeUtil | src/inventories/utils/date-range.util.ts:4-23 | The same for the utility's version, with the year unpadded. |
| CalendarLaws.ParsePrinted | src/inventories/inventories.service.ts:64-80 | Reading back a printed day gives the day, for every day of years 0 to 9999. |
| CalendarLaws.NextName | src/inventories/inventories.service.ts:79-80 | The name after y-m-date is y-m-(date + 1), except after the last date of a month (31, 30, 28, or 29 in a leap year), when it is the first of the next month or of the next January. |
| CalendarLaws.EpochIsDayZero | src/inventories/inventories.service.ts:64 | 1970-01-01 reads as day 0 and is a day's name, which with NextName fixes the name of every day. |
| CalendarLaws.ReadableIff | src/inventories/inventories.service.ts:66-73 | A string is readable exactly when it is YYYY-MM-DD with a month up to 12 and a date up to 31. |
| CalendarLaws.DateCountsFromTheFirst | src/inventories/inventories.service.ts:64-65 | The date number counts days from the first of the month, also past the month's end. |
| CalendarLaws.CivilUnique | src/inventories/utils/date-range.util.ts:16-18 | Year, month and date are determined by the day number, for every real date. |
| CalendarLaws.CalendarDateIff | src/bookings/bookings.service.ts:95-96 | A readable string names a real date exactly when its date number exists in its month of its year. |
| CalendarLaws.IsoOrder | src/inventories/inventories.service.ts:78-82 | Date names sort in dictionary order exactly as the days they name. |
| CalendarLaws.RangeIsHalfOpenInterval | src/inventories/inventories.service.ts:59-83 | A string is in the expanded range exactly when it is a real date in [checkIn, checkOut), as days and as strings. |
| CalendarLaws.RangeStrictlyIncreasing | src/inventories/inventories.service.ts:78-82 | The list is strictly increasing, both as days and as strings. |
| CalendarLaws.NightCountsAgree | src/bookings/bookings.service.ts:60-67 | Rounding up rejects exactly the empty ranges and otherwise gives the rounded count of search. |
| CalendarLaws.CountsMatchTheWalk | src/search/search.service.ts:342-347 | Both night counts equal the length of the walked range. |
| CalendarLaws.RangeVersionsAgreeIff | src/inventories/utils/date-range.util.ts:13-22 | The two range functions return the same list if and only if the stay starts in year 1000 or later. |
| CalendarLaws.UnpaddedDropsZeros | src/inventories/utils/date-range.util.ts:16-19 | The utility's name is the padded one without the leading zeros of its year. |
| InventoriesService.FullCountIffNoneMissing | src/inventories/inventories.service.ts:116-120 | As many locked rows as dates means a row of the hotel on every night (pigeonhole), and conversely. |
| InventoriesService.SavedIsApplied | src/inventories/inventories.service.ts:135-154 | Saving fully moved copies of the locked rows is exactly the operation on the table, which was acceptable. |
| InventoriesService.InventoriesService.SelectForUpdate | src/inventories/inventories.service.ts:108-114 | Returns exactly the rows of the hotel and room type dated in the list, each once. |
| InventoriesService.InventoriesService.HoldRoomsRange | src/inventories/inventories.service.ts:89-163 | The check loop, change loop and rollback refine "check all nights, then apply": success exactly when every night accepts; then exactly the covered rows move; otherwise nothing changes and the error names a condition that fails. |
| InventoriesService.InventoriesService.ConfirmBookingRange | src/inventories/inventories.service.ts:170-251 | The same for the single loop that checks and changes together, from the hold or, by default, directly. |
| InventoriesService.InventoriesService.ReleaseHoldRange | src/inventories/inventories.service.ts:256-320 | The same for giving held rooms back; stop-sell is not looked at. |
| InventoriesService.InventoriesService.CancelBookingRange | src/inventories/inventories.service.ts:325-389 | The same for returning sold rooms; stop-sell is not looked at. |
| LedgerLaws.MoveKeepsRow | src/inventories/inventories.service.ts:228-238 | A row that takes a movement was not oversubscribed, is not afterwards, and keeps available = max(0, total - blocked - sold). |
| LedgerLaws.StepKeepsInvariant | src/inventories/inventories.service.ts:204-239 | Each event, whichever writer it comes from, keeps the row invariant on every row. |
| LedgerLaws.RunKeepsInvariant | src/room-types/room-types.service.ts:240-255 | In every run of creations, total changes and range operations, available = max(0, total - blocked - sold) with blocked and sold non-negative. |
| LedgerLaws.ExactFrame | src/inventories/inventories.service.ts:288-319 | An accepted operation moves exactly the covered rows of its hotel by exactly its quantity, and no other row or field. |
| LedgerLaws.HoldThenRelease | src/inventories/inventories.service.ts:256-308 | After a hold the matching release restores the table; it is refused only if a covered row had a negative blocked counter, which no reachable row has. |
| LedgerLaws.HoldThenConfirmIsDirect | src/inventories/inventories.service.ts:204-241 | Hold then confirm from the hold equals the direct confirm as partial functions on tables. |
| LedgerLaws.HoldConfirmCancel | src/inventories/inventories.service.ts:357-379 | Hold, confirm from the hold, cancel is the identity whenever the hold is accepted. |
| LedgerLaws.HoldAcceptedIff | src/inventories/inventories.service.ts:122-151 | On a consistent table the closing test of a hold never fires: it is accepted exactly when each night exists, is on sale and has the rooms. |
| LedgerLaws.DirectAndCancelAcceptedIff | src/inventories/inventories.service.ts:218-239 | A direct confirm has the same condition; a cancel needs enough sold rooms and no oversubscribed night. |
| LedgerLaws.AcceptedIff | src/inventories/inventories.service.ts:116-377 | For each of the five kinds, counter by counter: a range operation on consistent rows succeeds exactly when every night has a row of the hotel that meets the stated conditions. |
| LedgerLaws.BatchAcceptedIff | src/inventories/inventories.service.ts:116-153 | A batch of overlapping holds is accepted in full exactly when every night exists, is on sale and has the summed demand available; the table then differs by exactly that demand. |
| LedgerLaws.BatchOrderIrrelevant | src/inventories/inventories.service.ts:116-153 | Neither the full acceptance of a batch of holds nor its final table depends on the order. |
| LedgerLaws.OversubscribedRefusesAll | src/inventories/inventories.service.ts:297-307 | An oversubscribed row refuses every kind and quantity, and only such a row refuses a release or cancel its counters allow. |
| LedgerLaws.FrozenStep | src/room-types/room-types.service.ts:246-253 | Any event short of raising the total back leaves an oversubscribed row oversubscribed, with the same blocked and sold and none available. |
| LedgerLaws.FrozenUntilRaised | src/room-types/room-types.service.ts:240-255 | Throughout any run that does not raise the total back, every operation touching the row is refused. |
| LedgerHistory.CountersRefineHistory | src/inventories/inventories.service.ts:89-389 | On each night, blocked = holds - releases - confirms from hold and sold = confirms - cancels over the accepted history. |
| LedgerHistory.OnlyCutsOversubscribe | src/room-types/room-types.service.ts:246-253 | An event oversubscribes a row of a clean table if and only if it sets a total below what that row owes. |
| LedgerHistory.NeverOverbooked | src/inventories/inventories.service.ts:140-150 | Starting clean, a run without such cuts never promises more rooms than a night has. |
| LedgerHistory.HistoryFitsTotal | src/inventories/inventories.service.ts:89-389 | From an empty database, accepted holds and confirms net of releases and cancels fit the total of each night. |
| RangeTransactions.CommitApplies | src/inventories/inventories.service.ts:153-154 | Committing a finished transaction's copies is applying its operation to the committed table of that moment. |
| RangeTransactions.RefusalIsRight | src/inventories/inventories.service.ts:116-133 | A transaction that fails one of its tests would be refused by the serial execution at that moment. |
| RangeTransactions.StepKeepsInv | src/inventories/inventories.service.ts:108-161 | Every step of every transaction keeps: locks disjoint, copies current, table equal to the serial replay of the history. |
| RangeTransactions.RefusalsLeaveNoTrace | src/inventories/inventories.service.ts:157-159 | Rolled-back transactions contribute nothing: replaying only the committed ones gives the same table. |
| RangeTransactions.Serializable | src/inventories/inventories.service.ts:108-154 | In every interleaving the committed table equals the committed transactions run serially in commit order, and each verdict is the serial one. |
| RangeTransactions.NoLostUpdate | src/inventories/inventories.service.ts:241-242 | At any moment each counter of each committed row is its starting value plus the sum of all committed movements on it. |
| RangeTransactions.NeverStuck | src/inventories/inventories.service.ts:116-154 | A transaction that has all its rows can always make its next step: check, change, commit or refuse. |
| RangeTransactions.ProgressTakesWork | src/inventories/inventories.service.ts:122-151 | Each check or change of a row takes one off the rows still unchecked or unmoved. |
| RangeTransactions.OthersLeaveWork | src/inventories/inventories.service.ts:108-114 | No step of another transaction gives it more work or takes a locked row from it. |
| RangeTransactions.CanFinishAlone | src/inventories/inventories.service.ts:116-161 | From then on it can run to its commit or refusal by its own steps alone, at most one more than the work it has left. |
| HotelServices.MoveRooms | src/bookings/bookings.service.ts:110-116 | A service's call of the inventory with a booking's printed dates is the operation on the booking's days. |
| HotelServices.BookingService.HoldBooking | src/bookings/bookings.service.ts:80-126 | Stores the booking and blocks its rooms, or does neither; succeeds exactly if stored. |
| HotelServices.BookingService.SaveIfHeld | src/bookings/bookings.service.ts:108-122 | The booking stays saved exactly if the inventory held its rooms. |
| HotelServices.BookingService.ComputeNights | src/bookings/bookings.service.ts:60-67 | Refuses exactly readable dates that are not in order; otherwise the days between them, or NaN. |
| HotelServices.BookingService.BuildBooking | src/bookings/bookings.service.ts:86-106 | The entity carries the asked hotel, room type, rooms, user and both parsed dates, the nights between them, and an expiry ten minutes from now. |
| HotelServices.BookingService.CancelExpiredHoldBooking | src/bookings/bookings.service.ts:128-169 | Does the expiry step; reports cancelled exactly when the state changed, and throws exactly when the booking stays on hold. |
| HotelServices.BookingService.UpdateBooking | src/bookings/bookings.service.ts:171-188 | Changes only the price and the self-book flag of an existing booking, the flag defaulting to 1. |
| HotelServices.BookingService.UpdatePaymentType | src/bookings/bookings.service.ts:190-216 | Does the payment-type step on a booking on hold and nothing otherwise; a refused confirmation is not reported. |
| HotelServices.BookingService.StartMomoPayment | src/bookings/bookings.service.ts:218-253 | Saves the pending booking even if the gateway then fails; succeeds exactly if it was on hold and the gateway answered. |
| HotelServices.BookingService.CancelBooking | src/bookings/bookings.service.ts:347-402 | The cancellation stays saved when the inventory refuses; success is reported exactly when both happened. |
| HotelServices.PaymentService.CreatePayment | src/payment/payment.service.ts:114-142 | One pending record under the fresh order number if the gateway answers, none otherwise. |
| HotelServices.PaymentService.HandleIpn | src/payment/payment.service.ts:169-223 | The field-by-field code does the notice step; any failure leaves bookings, payments and rows as they were. |
| HotelServices.RoomTypesService.Create | src/room-types/room-types.service.ts:94-111 | The loop adds exactly one fully available row per night for sixty nights from today. |
| HotelServices.RoomTypesService.Update | src/room-types/room-types.service.ts:240-255 | The loop rewrites total and available on every row of the room type, keeping blocked and sold, and no other row. |
| LedgerLaws.OpenedNightsCanBeHeld | src/room-types/room-types.service.ts:97-111 | Of a new room type a hold of q rooms is accepted exactly for 0 < q <= total and a stay within the sixty nights from today. |
| LedgerLaws.TotalReachesEveryNight | src/room-types/room-types.service.ts:240-255 | A new total is written to every night of the room type and no other; available is the rest after blocked and sold, or 0; everything else stays. |
| HotelServices.CronController.FindExpired | src/cron/cron.controller.ts:19-29 | Returns at most fifty bookings on hold whose expiry lies before the clock, earliest first; one is left out only if fifty others that expire no later are returned. |
| HotelServices.CronController.CleanupExpiredHoldBookings | src/cron/cron.controller.ts:18-34 | The loop sweeps such a batch in order and stops at the first cancel that throws; it runs through exactly if no booking of the batch is left on hold. |
| HotelInvariants.StepOnLedger | src/bookings/bookings.service.ts:110-116 | Each service call is, for the table, at most one ledger event; so all laws of the ledger hold of it. |
| HotelInvariants.RunOnLedger | src/bookings/bookings.service.ts:80-402 | The table after any run of service calls is the replay of the ledger events they cause. |
| HotelInvariants.StepFollowsEdges | src/bookings/bookings.service.ts:190-237 | No step removes a booking or changes its stay; its status moves only along the listed edges; its expiry is constant while it stays on hold. |
| HotelInvariants.StepOnPayments | src/payment/payment.service.ts:120-127 | A payment appears only as its booking leaves its hold for the gateway; a successful one is never touched. |
| HotelInvariants.OpenStaysUnsettled | src/payment/payment.service.ts:176-217 | No step makes a booking with an open payment confirmed or paid, other than by making that payment successful. |
| HotelInvariants.StepKeepsBlocked | src/bookings/bookings.service.ts:128-162 | After any step each row's blocked counter equals the rooms of the covering bookings the sweep has not expired. |
| HotelInvariants.StepKeepsInv | src/bookings/bookings.service.ts:80-402 | Every service call, notice and sweep keeps the whole invariant over rows, bookings and payments. |
| HotelInvariants.RunKeepsInv | src/bookings/bookings.service.ts:80-402 | So does every run. |
| HotelRuns.BlockedCoversHolds | src/bookings/bookings.service.ts:80-169 | In every reachable state, blocked on a night equals the rooms of covering unexpired bookings, hence at least those of the bookings on hold. |
| HotelRuns.ExpiryFailsIff | src/inventories/inventories.service.ts:282-308 | Expiring a hold never fails for want of rows or blocked rooms: it fails if and only if a night of the stay is oversubscribed. |
| HotelRuns.UnsweptHoldsStayBlocked | src/bookings/bookings.service.ts:206-212 | A booking that leaves its hold other than by the sweep keeps its rooms blocked through every later run. |
| HotelRuns.RankNeverFalls | src/payment/payment.service.ts:201-217 | Under any order and repetition of calls and notices no booking moves back towards its hold. |
| HotelRuns.NeverReentered | src/bookings/bookings.service.ts:227-236 | A hold or a pending payment, once left, is never entered again. |
| HotelRuns.OnePaymentPerBooking | src/payment/payment.service.ts:120-127 | In every reachable state a booking has at most one payment record. |
| HotelRuns.SuccessIsFinal | src/payment/payment.service.ts:176-178 | A successful payment is the same record after every later run. |
| HotelRuns.StepConfirmsOnce | src/payment/payment.service.ts:202-211 | A step makes a booking's payment successful exactly when it is a notice that confirms its inventory. |
| HotelRuns.ConfirmedOncePerSuccess | src/payment/payment.service.ts:169-220 | Over any run the notices confirm a booking's inventory as often as its payment becomes successful. |
| HotelRuns.ConfirmedAtMostOnce | src/payment/payment.service.ts:169-220 | From the start: at most once per booking, and exactly once if and only if a payment of it succeeded. |
| HotelEffects.TakesRoomsIff | src/inventories/inventories.service.ts:122-151 | A stay takes rooms exactly when every night has them, and then only its nights move, by that quantity. |
| HotelEffects.HoldEffect | src/bookings/bookings.service.ts:80-126 | A hold from one day to another succeeds exactly when every night of the whole stay has the rooms on sale in the hotel; then exactly those nights move exactly those rooms from available to blocked, and the stored booking is that stay, field by field; else nothing changes. |
| HotelEffects.HoldNeedsRealDates | src/bookings/bookings.service.ts:95-108 | A hold whose dates are not both names of days changes nothing. |
| HotelEffects.ExpiryEffect | src/bookings/bookings.service.ts:128-162 | The sweep's cancel of a hold gives every night its rooms back and records reason and time, or changes nothing when a night owes more than its total or the booking is not on hold. |
| HotelEffects.PaymentTypeEffect | src/bookings/bookings.service.ts:190-216 | For a booking on hold, whatever the choice, is_self_book rooms are confirmed from the available ones when every night has them; the hold's blocked rooms stay; only paying at the hotel ends the hold. Any other booking is left alone. |
| HotelEffects.RepeatedChoices | src/bookings/bookings.service.ts:197-212 | n choices to pay in advance sell is_self_book rooms n times, or as often as every night still has them, for one booking on hold. |
| HotelEffects.UpdateEffect | src/bookings/bookings.service.ts:171-188 | An update stores the price, and the self-book flag or 1, and touches nothing else. |
| HotelEffects.PriceIsPaid | src/bookings/bookings.service.ts:180-245 | The price an update stores is the amount of the payment the gateway is then asked for. |
| HotelEffects.UnknownChangesNothing | src/payment/payment.service.ts:169-178 | Calls about an unknown booking or order change nothing, nor does a notice for a payment that succeeded. |
| HotelEffects.MomoStartEffect | src/bookings/bookings.service.ts:218-245 | For a booking on hold: moves no room, sets type, status and an expiry ten minutes later, and a pending payment over its price exists exactly if the gateway answered. Any other booking is left alone. |
| HotelEffects.CancelEffect | src/bookings/bookings.service.ts:347-402 | A customer may cancel their own booking only, an owner one of their hotel, an admin any, and nobody a cancelled or expired one: such calls change nothing. An allowed one cancels the booking with the caller's reason and moves its rooms from sold to available exactly when every night has them sold and is not oversubscribed; afterwards no caller's changes anything. |
| HotelEffects.StrangersNeverCancel | src/bookings/bookings.service.ts:360-363 | However a run goes, a customer's call never cancels a booking made for another user or for none. |
| HotelEffects.PaidNoticeCountsRoomsTwice | src/payment/payment.service.ts:202-211 | A success notice sells the rooms from the available ones while the hold keeps them blocked; if a night lacks them nothing is saved. |
| HotelEffects.FailedNoticeMovesNoRoom | src/payment/payment.service.ts:184-217 | Any other notice moves no room; by its message, cancelling before expiring, it cancels or expires payment and booking, else the payment failed; whatever the booking's status was. |
| HotelEffects.RunConserves | src/inventories/inventories.service.ts:89-389 | Over any run that leaves a room type's total alone, a night's total and the sum of its three counters are constant. |
| HotelEffects.ServicesNeverOverbook | src/bookings/bookings.service.ts:80-402 | Starting clean, no run of service calls without a cut of a total makes a night owe more rooms than it has. |
| SoldAccount.OneBookingChanged | src/inventories/inventories.service.ts:224-225 | After a change of one booking, sold equals bought on every night exactly when its nights' sold moved by what was bought of it. |
| SoldAccount.PayAtHotelKeepsSoldIff | src/bookings/bookings.service.ts:202-212 | Paying at the hotel keeps sold equal to bought iff every night has is_self_book rooms and that is the number of rooms booked. |
| SoldAccount.PrepaidKeepsSoldIff | src/bookings/bookings.service.ts:202-212 | Choosing to pay in advance keeps it iff some night lacks is_self_book rooms. |
| SoldAccount.CancelKeepsSoldIff | src/bookings/bookings.service.ts:378-390 | A cancellation keeps it iff the booking was bought exactly when every night has its rooms sold and is not oversubscribed. |
| SoldAccount.NoticeKeepsSold | src/payment/payment.service.ts:169-220 | Every notice keeps it, however late or often it comes. |
| SoldAccount.CancelRangeKeepsSoldIff | src/inventories/inventories.controller.ts:26-45 | The range endpoint keeps it iff some night of the range lacks the sold rooms or is oversubscribed. |
| SoldAccount.StepKeepsSoldIff | src/bookings/bookings.service.ts:80-402 | For every call, notice, sweep and change of a room type: sold stays equal to bought iff the call's condition holds beforehand. |
| SoldAccount.RunKeepsSoldIff | src/bookings/bookings.service.ts:80-402 | Sold equals bought all along a run iff it does at the start and every call meets its condition when it is made. |
| SoldAccount.GatewayRunsAgree | src/payment/payment.service.ts:169-220 | Runs without the payment-type call and without cancellations keep sold equal to bought throughout. |
| SoldAccount.SoldCanFallShort | src/bookings/bookings.service.ts:206-212 | A run from an empty start, holding two rooms and paying at the hotel, that ends with one sold against two confirmed. |
| CronSweep.CallKeepsSweep | src/bookings/bookings.service.ts:171-187 | A booking found by the sweep that is still on hold after another call still has the expiry it had when found. |
| CronSweep.SweepCancelsOnlyExpired | src/cron/cron.controller.ts:18-33 | With any calls and other sweeps between the query and a cancel, the cancel changes only a booking that is on hold and whose expiry lies before the time of the query. |
| CronSweep.SweepOne | src/bookings/bookings.service.ts:128-162 | Cancelling a hold on no oversubscribed night removes exactly it from the backlog, returns exactly its rooms, and freezes or thaws no night. |
| CronSweep.SweepTakesPrefix | src/cron/cron.controller.ts:31-33 | A sweep takes exactly the bookings of its batch before the first one on an oversubscribed night. |
| CronSweep.SweepReturnsPrefix | src/cron/cron.controller.ts:31-33 | Those bookings' rooms return to their nights and nothing else changes. |
| CronSweep.TickTakesPrefix | src/cron/cron.controller.ts:18-34 | The same for a tick of the timer, with the query's batch. |
| CronSweep.TickShrinks | src/cron/cron.controller.ts:20-33 | With no frozen hold in the backlog a tick takes fifty of it or all of it, so it strictly decreases until empty. |
| CronSweep.OldestFirst | src/cron/cron.controller.ts:25-28 | What a tick leaves behind expired no earlier than anything it took, frozen holds or not. |
| CronSweep.BehindFrozenWaits | src/cron/cron.controller.ts:25-33 | While a hold is frozen, no number of ticks sweeps any hold that expired after it. |
| CronSweep.TicksReturnRooms | src/bookings/bookings.service.ts:148-162 | Over any number of ticks each night gets back exactly what the swept holds had blocked. |
| CronSweep.DrainedInCeilingTicks | src/cron/cron.controller.ts:20-33 | A backlog of n expired holds is empty if and only if none is on an oversubscribed night and at least ceil(n / 50) ticks have passed; all their rooms are then available again. |
| CronSweep.TickSparesOthers | src/cron/cron.controller.ts:20-24 | No tick changes a booking that is not on hold or whose expiry does not lie before it. |
| CronSweep.LateHoldsAreCancelled | src/cron/cron.controller.ts:18-34 | If no night of them owes more than its total, each of n late holds is cancelled as expired within ceil(n / 50) quiet ticks, and every other booking is as it was. |
| Pricing.ChargesExactlyTheExtras | src/search/search.service.ts:719-741 | Whatever the nights and rooms, the night costs the plan's price and one extra fee for exactly max(0, adults + children - base) guests, children only after all base slots went to adults first; price and prepayment are the plan's own. |
| Pricing.StayIsEveryNightOfEveryRoom | src/search/search.service.ts:731 | The stay total is the night's total charged once for every night of every room. |
| Pricing.StayTotalsAdd | src/search/search.service.ts:731 | Splitting the nights or the rooms splits the stay total. |
| Pricing.AdultsFirstIsCheapest | src/search/search.service.ts:719-729 | With adult fee >= child fee >= 0 no allocation of the base slots is cheaper. |
| Pricing.AdultsFirstCheapestIff | src/search/search.service.ts:719-729 | For every plan: no party has a cheaper allocation if and only if there is no base slot or the fees have that order. |
| Pricing.TotalsMonotone | src/search/search.service.ts:726-731 | Nightly and stay totals do not fall when guests, nights or rooms are added. |
| Search.MinPrice | src/search/search.service.ts:458-469 | The best price is attained by a matching plan and no matching plan is cheaper. |
| Search.QueryRoomTypes | src/search/search.service.ts:355-487 | Lists each candidate once with its best price, ordered by it. |
| Search.AggregateInventory | src/search/search.service.ts:532-551 | The count and least free rooms are those of the rows on sale in the range; no row, no group. |
| Search.InventoryPasses | src/search/search.service.ts:575-577 | The three early-outs of the loop are the aggregate test. |
| Search.AddRoom | src/search/search.service.ts:584-632 | Adding a room type keeps one entry per hotel, each with its eligible room types once and the least of their best prices; entries and the rooms in them stay in price order when rooms arrive in price order. |
| Search.GroupEligible | src/search/search.service.ts:574-633 | The entries hold exactly the candidates whose inventory passes; in either direction entries stand in the order of their first room type's price. |
| Search.MinimaAscend | src/search/search.service.ts:607-615 | With ascending prices the hotels' least prices ascend in insertion order, because each is its first room type's. |
| Search.LoadRatePlans | src/search/search.service.ts:636-677 | Re-querying all plans at once and grouping them gives each room type exactly its matching plans. |
| Search.PriceRoom | src/search/search.service.ts:666-682 | Each matching plan is listed once, priced for the party, by nightly total. |
| Search.RunningMinIsMinOverPlans | src/search/search.service.ts:607-615 | The running minimum over best prices is the least price amount among all plans the hotel lists. |
| Search.OfferHotel | src/search/search.service.ts:685-691 | A hotel's offer lists its eligible room types, each with its non-empty plan list and the hotel's least price. |
| Search.Search | src/search/search.service.ts:349-710 | Lists nothing for unreadable dates, refuses exactly a check-out not after the check-in; otherwise every eligible room type is listed, only those, under its hotel with its best price, plans complete and sorted for the nights between the dates, hotel_min_price the minimum over listed plans; hotels and their rooms follow the price order, and hotel_min_price ascends when asked to. |
| SearchLaws.BookableIff | src/search/search.service.ts:532-577 | The aggregate test holds exactly when every night exists, is on sale and has enough free rooms as search counts them. |
| SearchLaws.BookableCanBeHeld | src/search/search.service.ts:574-577 | Whatever passes the aggregate can be held on the same table for the same stay and rooms. |
| SearchLaws.HoldableIsListedIff | src/search/search.service.ts:536 | What can be held passes the aggregate if and only if every night also has room for its blocked and sold rooms again. |
| SearchLaws.UntouchedNightsAgree | src/search/search.service.ts:532-577 | With nothing blocked or sold the two tests agree exactly. |
| SearchLaws.ListedIffEligible | src/search/search.service.ts:574-633 | A correct result lists a room type exactly when it is eligible. |
| SearchLaws.ListedIff | src/search/search.service.ts:355-577 | Field by field: a room type is listed exactly when it is active, takes the party, lies in the asked place and stars, has the amenities and a wanted plan, and every night is on sale with the rooms left after blocked and sold. |
| SearchLaws.PlaceIff | src/search/search.service.ts:375-383 | The place asked is the named hotel, or else each named administrative unit. |
| SearchLaws.ListedPlansIff | src/search/search.service.ts:636-657 | Under a listed room type stand exactly its plans within the price bounds, without prepayment if so asked. |
| SearchLaws.ListedAmounts | src/search/search.service.ts:726-741 | Each listed plan carries its own price and prepayment, the night's total by the guests above the base, and the stay total for all nights and rooms. |
| SearchLaws.PlansRise | src/search/search.service.ts:679-682 | The plans under a room type rise in nightly_total. |
| SearchLaws.BestPriceIsListed | src/search/search.service.ts:458-469 | A room type's best price is the least price among the plans listed under it. |
| SearchLaws.HotelPriceIsListed | src/search/search.service.ts:607-615 | hotel_min_price is the least price among all plans listed for the hotel. |
| SearchLaws.HotelPricesRise | src/search/search.service.ts:471-472 | With rising prices asked for, hotels rise in hotel_min_price. |
| SearchLaws.HotelsFollowPrice | src/search/search.service.ts:471-472 | In either direction hotels follow the best price of their first room type. |
| SearchLaws.RoomsFollowPrice | src/search/search.service.ts:471-472 | So do the room types of each hotel. |
| SearchLaws.HoldableCandidateListedIff | src/search/search.service.ts:531-577 | A candidate that can be held for the searched stay is in the result iff every night also has room for its blocked and sold rooms again. |
| SearchLaws.SearchCanHideRooms | src/search/search.service.ts:536 | A concrete catalog and search: the room type is found when one room is asked for; two can be held, but asking for two hides it. |
| SearchLaws.ListedCanBeHeld | src/search/search.service.ts:574-633 | In every reachable state, each listed room type can be held for the searched stay in the hotel it is listed under. |
| SearchLaws.ListedOnce | src/search/search.service.ts:631-632 | No room type appears in two places of a result. |
| SearchLaws.AmenityCountIff | src/search/search.service.ts:391-423 | The amenity count test means all asked amenities are present and none is asked for twice. |

## Left out

* Working copies and stored records are values held in tables that are fields of the service
  classes; two references to one entity object in memory are not modelled.
* Rows, bookings and payments removed by other services: deleting a room type is not modelled, so rows persist.
* Adults, children, rate plan, contact data, reservation code, payment expiry and promo tag of a
  booking are not stored in the model; no modelled operation reads them back.
* HTTP controllers, guards, request validation and authentication; the one ledger endpoint
  among them, cancelling a range directly, is an event of the runs.
* The gateway's HTTP call and the signature of a notice, as stated under Assumptions; matching the
  words of a notice's message is a pair of flags.
* Mail, images, hotel policies and hotel information in a search answer, the snapshot of
  total rooms, suggestions and pagination.
* Transactions of the database inside MySQL: tables are maps, queries are the sets of records they
  select, and a deadlock is a transaction that aborts.
* Crashes between a booking's transaction and the inventory's, and races inside calls that take
  no lock: the code promises nothing there.
* Floating-point rounding of prices and fees.
- Calendar.BuildDateRange: reads only YYYY-MM-DD strings; the other shapes a JavaScript date accepts count as unreadable.
- Calendar.BuildDateRangeUtil: reads only YYYY-MM-DD strings, likewise.
- HotelServices.BookingService.UpdateBooking: contact, guest and promotion fields are not stored, because no modelled call reads them.
- HotelServices.RoomTypesService.Update: the other fields of a room type are not modelled, among them a change of its hotel, which does not touch the rows.
